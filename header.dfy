/** The regular-expression searches both parsers share: the draw id after
    the first `#` of the header, the first `dd/mm/yyyy` of the header and its
    rewrite as `yyyy-mm-dd`, and the cursor in the "previous draw" link. */
module Header {
  import opened Draws
  import opened Text

  /** `re.search`: the first position at or after `from` where a match starts. */
  function Leftmost(h: string, matchAt: (string, nat) -> bool, from: nat): (r: Option<nat>)
    decreases |h| - from
    ensures r.Some? ==> from <= r.value < |h| && matchAt(h, r.value)
    ensures r.Some? ==> forall j: nat :: from <= j < r.value ==> !matchAt(h, j)
    ensures r.None? ==> forall j: nat :: from <= j < |h| ==> !matchAt(h, j)
  {
    if from >= |h| then None
    else if matchAt(h, from) then Some(from)
    else Leftmost(h, matchAt, from + 1)
  }

  /** The end of the run of digits that starts at `j` (a greedy `\d+`). */
  function DigitRunEnd(h: string, j: nat): (e: nat)
    requires j <= |h|
    decreases |h| - j
    ensures j <= e <= |h|
    ensures forall k :: j <= k < e ==> IsDigit(h[k])
    ensures e == |h| || !IsDigit(h[e])
  {
    if j < |h| && IsDigit(h[j]) then DigitRunEnd(h, j + 1) else j
  }

  /** A greedy digit run ends where the digits end. */
  lemma {:induction false} DigitRunEndOf(h: string, j: nat, e: nat)
    requires j <= e <= |h|
    requires forall k :: j <= k < e ==> IsDigit(h[k])
    requires e == |h| || !IsDigit(h[e])
    ensures DigitRunEnd(h, j) == e
    decreases e - j
  {
    if j < e { DigitRunEndOf(h, j + 1, e); }
  }

  // ---- the draw id: #(\d+) ----

  predicate IdMarkAt(h: string, i: nat) {
    i + 1 < |h| && h[i] == '#' && IsDigit(h[i + 1])
  }

  /** The digits after the first `#` that is followed by a digit. */
  function FindDrawId(h: string): (r: Option<string>)
    ensures r.Some? <==> exists i: nat :: IdMarkAt(h, i)
    ensures r.Some? ==> IsDigits(r.value)
    ensures r.Some? ==> exists i: nat ::
      && IdMarkAt(h, i) && (forall j: nat :: j < i ==> !IdMarkAt(h, j))
      && i + 1 + |r.value| <= |h| && h[i + 1..i + 1 + |r.value|] == r.value
      && (i + 1 + |r.value| == |h| || !IsDigit(h[i + 1 + |r.value|]))
  {
    match Leftmost(h, IdMarkAt, 0)
    case None => None
    case Some(i) => Some(h[i + 1..DigitRunEnd(h, i + 1)])
  }

  /** A header written as `pre#<id>post`, with no `#` before the id and no
      digit right after it, yields that id. */
  lemma FindDrawIdRendered(pre: string, id: string, post: string)
    requires '#' !in pre && IsDigits(id)
    requires post == [] || !IsDigit(post[0])
    ensures FindDrawId(pre + "#" + id + post) == Some(id)
  {
    var h := pre + "#" + id + post;
    var i := |pre|;
    assert h[i] == '#' && h[i + 1] == id[0];
    assert IdMarkAt(h, i);
    forall j: nat | j < i ensures !IdMarkAt(h, j) {
      assert h[j] == pre[j];
    }
    var m := Leftmost(h, IdMarkAt, 0);
    assert m == Some(i);
    var e := i + 1 + |id|;
    forall k | i + 1 <= k < e ensures IsDigit(h[k]) {
      assert h[k] == id[k - i - 1];
    }
    if e < |h| { assert h[e] == post[0]; }
    DigitRunEndOf(h, i + 1, e);
    assert h[i + 1..e] == id;
  }

  // ---- the date: (\d{2}/\d{2}/\d{4}) ----

  predicate DateAt(h: string, i: nat) {
    && i + 10 <= |h|
    && IsDigit(h[i]) && IsDigit(h[i + 1]) && h[i + 2] == '/'
    && IsDigit(h[i + 3]) && IsDigit(h[i + 4]) && h[i + 5] == '/'
    && IsDigit(h[i + 6]) && IsDigit(h[i + 7]) && IsDigit(h[i + 8]) && IsDigit(h[i + 9])
  }

  /** Exactly `dd/mm/yyyy`. */
  predicate DmyShaped(s: string) {
    |s| == 10 && DateAt(s, 0)
  }

  /** The first `dd/mm/yyyy` in the header text. */
  function FindDate(h: string): (r: Option<string>)
    ensures r.Some? <==> exists i: nat :: DateAt(h, i)
    ensures r.Some? ==> DmyShaped(r.value)
    ensures r.Some? ==> exists i: nat ::
      && DateAt(h, i) && (forall j: nat :: j < i ==> !DateAt(h, j))
      && h[i..i + 10] == r.value
  {
    match Leftmost(h, DateAt, 0)
    case None => None
    case Some(i) => Some(h[i..i + 10])
  }

  /** A header whose text before the date holds no digit yields that date. */
  lemma FindDateRendered(pre: string, dmy: string, post: string)
    requires forall k :: 0 <= k < |pre| ==> !IsDigit(pre[k])
    requires DmyShaped(dmy)
    ensures FindDate(pre + dmy + post) == Some(dmy)
  {
    var h := pre + dmy + post;
    var i := |pre|;
    assert h[i..i + 10] == dmy;
    assert DateAt(h, i);
    forall j: nat | j < i ensures !DateAt(h, j) {
      assert h[j] == pre[j];
    }
    assert Leftmost(h, DateAt, 0) == Some(i);
  }

  predicate IsLeapYear(y: int) {
    y % 4 == 0 && (y % 100 != 0 || y % 400 == 0)
  }

  function DaysInMonth(y: int, m: int): (n: int)
    requires 1 <= m <= 12
    ensures 28 <= n <= 31
  {
    if m == 2 then (if IsLeapYear(y) then 29 else 28)
    else if m == 4 || m == 6 || m == 9 || m == 11 then 30
    else 31
  }

  /** A date `datetime` accepts: year 1 or later, a month, a day of that
      month in the proleptic Gregorian calendar. */
  predicate IsCalendarDate(y: int, m: int, d: int) {
    1 <= y && 1 <= m <= 12 && 1 <= d <= DaysInMonth(y, m)
  }

  function DayText(dmy: string): string requires DmyShaped(dmy) { dmy[..2] }
  function MonthText(dmy: string): string requires DmyShaped(dmy) { dmy[3..5] }
  function YearText(dmy: string): string requires DmyShaped(dmy) { dmy[6..] }

  /** The day, month and year numbers of a `dd/mm/yyyy` string. */
  function Day(dmy: string): nat requires DmyShaped(dmy) { ParseNat(DayText(dmy)) }
  function Month(dmy: string): nat requires DmyShaped(dmy) { ParseNat(MonthText(dmy)) }
  function Year(dmy: string): nat requires DmyShaped(dmy) { ParseNat(YearText(dmy)) }

  /** Exactly `yyyy-mm-dd`. */
  predicate IsoShaped(s: string) {
    && |s| == 10
    && IsDigit(s[0]) && IsDigit(s[1]) && IsDigit(s[2]) && IsDigit(s[3]) && s[4] == '-'
    && IsDigit(s[5]) && IsDigit(s[6]) && s[7] == '-' && IsDigit(s[8]) && IsDigit(s[9])
  }

  /** Writes a `yyyy-mm-dd` string back as `dd/mm/yyyy`. */
  function IsoToDmy(iso: string): string
    requires IsoShaped(iso)
  {
    iso[8..] + "/" + iso[5..7] + "/" + iso[..4]
  }

  /** `strptime(dmy, "%d/%m/%Y").strftime("%Y-%m-%d")`: the same date as
      `yyyy-mm-dd`, or nothing where `strptime` raises because the text is
      not a calendar date. Reading the result back gives the input. */
  function IsoDate(dmy: string): (r: Option<string>)
    requires DmyShaped(dmy)
    ensures r.Some? <==> IsCalendarDate(Year(dmy), Month(dmy), Day(dmy))
    ensures r.Some? ==> IsoShaped(r.value) && IsoToDmy(r.value) == dmy
  {
    if IsCalendarDate(Year(dmy), Month(dmy), Day(dmy)) then
      var iso := YearText(dmy) + "-" + MonthText(dmy) + "-" + DayText(dmy);
      assert IsoToDmy(iso) == dmy;
      Some(iso)
    else None
  }

  /** `a` falls strictly before `b` on the calendar. */
  predicate DateBefore(a: string, b: string)
    requires DmyShaped(a) && DmyShaped(b)
  {
    || Year(a) < Year(b)
    || (Year(a) == Year(b) && Month(a) < Month(b))
    || (Year(a) == Year(b) && Month(a) == Month(b) && Day(a) < Day(b))
  }

  /** Two `year-month-day` texts with fields of equal widths compare field
      by field: year first, then month, then day. */
  lemma FieldsLess(ya: string, ma: string, da: string, yb: string, mb: string, db: string)
    requires |ya| == |yb| && |ma| == |mb|
    ensures Less(ya + ("-" + (ma + ("-" + da))), yb + ("-" + (mb + ("-" + db)))) <==>
      || Less(ya, yb)
      || (ya == yb && Less(ma, mb))
      || (ya == yb && ma == mb && Less(da, db))
  {
    FieldLess(ya, ma + ("-" + da), yb, mb + ("-" + db));
    FieldLess(ma, da, mb, db);
  }

  /** A field followed by `-` and more text, against another field of the
      same width: the fields decide unless they are equal. */
  lemma FieldLess(x: string, r: string, y: string, t: string)
    requires |x| == |y|
    ensures Less(x + ("-" + r), y + ("-" + t)) <==> Less(x, y) || (x == y && Less(r, t))
  {
    LessConcat(x, "-" + r, y, "-" + t);
    LessConcat("-", r, "-", t);
    LessIrreflexive("-");
  }

  /** The `yyyy-mm-dd` strings the parsers store order as their dates do:
      sorting records by the date string is sorting them chronologically. */
  lemma IsoDateChronological(a: string, b: string)
    requires DmyShaped(a) && DmyShaped(b)
    requires IsoDate(a).Some? && IsoDate(b).Some?
    ensures Less(IsoDate(a).value, IsoDate(b).value) <==> DateBefore(a, b)
  {
    var ya, ma, da := YearText(a), MonthText(a), DayText(a);
    var yb, mb, db := YearText(b), MonthText(b), DayText(b);
    assert IsoDate(a).value == ya + ("-" + (ma + ("-" + da)));
    assert IsoDate(b).value == yb + ("-" + (mb + ("-" + db)));
    FieldsLess(ya, ma, da, yb, mb, db);
    DigitsLess(ya, yb);
    DigitsEqual(ya, yb);
    DigitsLess(ma, mb);
    DigitsEqual(ma, mb);
    DigitsLess(da, db);
  }

  // ---- the cursor: ClientDrawResult\(['"](\d+)['"]\) ----

  const CallPrefix := "ClientDrawResult("

  predicate IsQuote(c: char) {
    c == '\'' || c == '"'
  }

  /** Where the cursor's digits start, for a match at `i`. */
  function CursorStart(i: nat): nat {
    i + |CallPrefix| + 1
  }

  predicate CursorAt(h: string, i: nat) {
    var k := CursorStart(i);
    && k < |h| && h[i..k - 1] == CallPrefix && IsQuote(h[k - 1]) && IsDigit(h[k])
    && var e := DigitRunEnd(h, k);
    e + 1 < |h| && IsQuote(h[e]) && h[e + 1] == ')'
  }

  /** The digits of the first `ClientDrawResult('<digits>')` call in a link. */
  function FindPrevCursor(href: string): (r: Option<string>)
    ensures r.Some? <==> exists i: nat :: CursorAt(href, i)
    ensures r.Some? ==> IsDigits(r.value)
    ensures r.Some? ==> exists i: nat ::
      && CursorAt(href, i) && (forall j: nat :: j < i ==> !CursorAt(href, j))
      && CursorStart(i) + |r.value| <= |href|
      && href[CursorStart(i)..CursorStart(i) + |r.value|] == r.value
  {
    match Leftmost(href, CursorAt, 0)
    case None => None
    case Some(i) =>
      var k := CursorStart(i);
      CursorDigits(href, i);
      Some(href[k..DigitRunEnd(href, k)])
  }

  /** The digits of a match at `i` are a non-empty digit string. */
  lemma CursorDigits(h: string, i: nat)
    requires CursorAt(h, i)
    ensures IsDigits(h[CursorStart(i)..DigitRunEnd(h, CursorStart(i))])
  {
    var k := CursorStart(i);
    var digits := h[k..DigitRunEnd(h, k)];
    forall m | 0 <= m < |digits| ensures IsDigit(digits[m]) {
      assert digits[m] == h[k + m];
    }
  }

  /** The pieces of a call, laid out from position `i`, make a match there. */
  lemma CursorMatchAt(h: string, i: nat, id: string)
    requires IsDigits(id)
    requires CursorStart(i) + |id| + 2 <= |h|
    requires h[i..CursorStart(i) - 1] == CallPrefix && IsQuote(h[CursorStart(i) - 1])
    requires h[CursorStart(i)..CursorStart(i) + |id|] == id
    requires IsQuote(h[CursorStart(i) + |id|]) && h[CursorStart(i) + |id| + 1] == ')'
    ensures CursorAt(h, i) && DigitRunEnd(h, CursorStart(i)) == CursorStart(i) + |id|
  {
    var k := CursorStart(i);
    var e := k + |id|;
    forall m | k <= m < e ensures IsDigit(h[m]) {
      assert h[m] == h[k..e][m - k];
    }
    assert h[k] == h[k..e][0];
    DigitRunEndOf(h, k, e);
  }

  /** No match can start at a character other than `C`. */
  lemma NoCursorBefore(h: string, i: nat)
    requires i <= |h| && forall j :: 0 <= j < i ==> h[j] != 'C'
    ensures forall j: nat :: j < i ==> !CursorAt(h, j)
  {
    forall j: nat | j < i ensures !CursorAt(h, j) {
      if CursorStart(j) < |h| {
        assert h[j..CursorStart(j) - 1][0] == h[j];
      }
    }
  }

  /** A link written as `pre` + `ClientDrawResult('<id>')` + `post`, with no
      `C` before the call, yields that id (either quote character on either
      side). */
  lemma FindPrevCursorRendered(pre: string, open: char, id: string, close: char, post: string)
    requires 'C' !in pre && IsQuote(open) && IsQuote(close) && IsDigits(id)
    ensures FindPrevCursor(pre + CallPrefix + [open] + id + [close, ')'] + post) == Some(id)
  {
    var rest := [open] + (id + ([close, ')'] + post));
    var h := pre + (CallPrefix + rest);
    Reassociate(pre, CallPrefix, [open], id, [close, ')'], post);
    var i := |pre|;
    var k := CursorStart(i);
    CallLayout(pre, rest, h);
    IdLayout(open, id, [close, ')'] + post, rest);
    SliceOfSuffix(h, k - 1, rest, 1, 1 + |id|);
    assert h[k - 1] == rest[0];
    assert h[k + |id|] == rest[1 + |id|] && h[k + |id| + 1] == rest[2 + |id|];
    forall j | 0 <= j < i ensures h[j] != 'C' {
      assert h[j] == pre[j];
    }
    CursorOfLayout(h, i, id);
  }

  /** A call laid out at `i`, with no `C` before it, is the first match. */
  lemma CursorOfLayout(h: string, i: nat, id: string)
    requires IsDigits(id)
    requires CursorStart(i) + |id| + 2 <= |h|
    requires h[i..CursorStart(i) - 1] == CallPrefix && IsQuote(h[CursorStart(i) - 1])
    requires h[CursorStart(i)..CursorStart(i) + |id|] == id
    requires IsQuote(h[CursorStart(i) + |id|]) && h[CursorStart(i) + |id| + 1] == ')'
    requires forall j :: 0 <= j < i ==> h[j] != 'C'
    ensures FindPrevCursor(h) == Some(id)
  {
    CursorMatchAt(h, i, id);
    assert h[CursorStart(i)..DigitRunEnd(h, CursorStart(i))] == id;
    NoCursorBefore(h, i);
    FindPrevCursorAt(h, i);
  }

  /** The first match decides what the search returns. */
  lemma FindPrevCursorAt(h: string, i: nat)
    requires CursorAt(h, i) && forall j: nat :: j < i ==> !CursorAt(h, j)
    ensures FindPrevCursor(h) == Some(h[CursorStart(i)..DigitRunEnd(h, CursorStart(i))])
  {
    assert Leftmost(h, CursorAt, 0) == Some(i);
  }

  lemma Reassociate(a: string, b: string, c: string, d: string, e: string, f: string)
    ensures a + b + c + d + e + f == a + (b + (c + (d + (e + f))))
  {
  }

  lemma SliceOfSuffix(h: string, start: nat, rest: string, lo: nat, hi: nat)
    requires start <= |h| && h[start..] == rest && lo <= hi <= |rest|
    ensures h[start + lo..start + hi] == rest[lo..hi]
  {
    var a, b := h[start + lo..start + hi], rest[lo..hi];
    forall m | 0 <= m < |a| ensures a[m] == b[m] {
      assert a[m] == h[start..][lo + m];
    }
  }

  lemma CallLayout(pre: string, rest: string, h: string)
    requires h == pre + (CallPrefix + rest)
    ensures h[|pre|..CursorStart(|pre|) - 1] == CallPrefix
    ensures h[CursorStart(|pre|) - 1..] == rest
  {
    assert h[|pre|..] == CallPrefix + rest;
  }

  lemma IdLayout(open: char, id: string, post: string, rest: string)
    requires rest == [open] + (id + post)
    ensures rest[0] == open && rest[1..1 + |id|] == id && rest[1 + |id|..] == post
  {
    assert rest[1..] == id + post;
  }

  /** The backward cursor of a page: none without a previous-draw link, else
      what the link's `href` holds. */
  function PrevDrawId(link: Option<string>): (r: Option<string>)
    ensures link.None? ==> r.None?
    ensures link.Some? ==> r == FindPrevCursor(link.value)
    ensures r.Some? ==> IsDigits(r.value)
  {
    match link
    case None => None
    case Some(href) => FindPrevCursor(href)
  }

  // ---- the header as a whole ----

  /** The draw id and the ISO date a header yields. */
  datatype HeaderFields = HeaderFields(id: string, date: string)

  /** Both parsers' header step: no header, no id, no date or a date that is
      not on the calendar all yield nothing; otherwise the id is the digits
      after the first `#` and the date is the first `dd/mm/yyyy` as
      `yyyy-mm-dd`. */
  function ParseHeader(header: Option<string>): (r: Option<HeaderFields>)
    ensures r.Some? <==>
      && header.Some?
      && FindDrawId(header.value).Some?
      && FindDate(header.value).Some?
      && IsCalendarDate(Year(FindDate(header.value).value), Month(FindDate(header.value).value),
                        Day(FindDate(header.value).value))
    ensures r.Some? ==> IsDigits(r.value.id) && IsoShaped(r.value.date)
    ensures r.Some? ==> r.value.id == FindDrawId(header.value).value
    ensures r.Some? ==> IsoToDmy(r.value.date) == FindDate(header.value).value
  {
    match header
    case None => None
    case Some(text) =>
      match FindDrawId(text)
      case None => None
      case Some(id) =>
        match FindDate(text)
        case None => None
        case Some(dmy) =>
          match IsoDate(dmy)
          case None => None
          case Some(iso) => Some(HeaderFields(id, iso))
  }
}
