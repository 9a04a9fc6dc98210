/** Response parsing: the numeric-draw parser, the three-digit-code parser
    (Max 3D), the dispatch between them on the product type, and one fetch
    (post the request body, take the HTML out of the JSON reply, parse). */
module ResponseParser {
  import opened Draws
  import opened Text
  import opened Header
  import opened RequestBuilder

  // ---- collecting in document order ----

  /** What a loop that appends `f(x)` for every `x` of `xs` ends with. */
  function Gather<T, U>(f: T -> seq<U>, xs: seq<T>): seq<U> {
    if xs == [] then [] else Gather(f, xs[..|xs| - 1]) + f(xs[|xs| - 1])
  }

  /** One more element appends its contribution. */
  lemma GatherStep<T, U>(f: T -> seq<U>, xs: seq<T>, i: nat)
    requires i < |xs|
    ensures Gather(f, xs[..i + 1]) == Gather(f, xs[..i]) + f(xs[i])
  {
    assert xs[..i + 1][..i] == xs[..i];
  }

  /** A single element collects its own contribution. */
  lemma GatherSingle<T, U>(f: T -> seq<U>, x: T)
    ensures Gather(f, [x]) == f(x)
  {
    assert [x][..0] == [];
  }

  /** The results of consecutive runs follow one another: the collection
      keeps document order and looks at each element on its own. */
  lemma {:induction false} GatherAppend<T, U>(f: T -> seq<U>, a: seq<T>, b: seq<T>)
    ensures Gather(f, a + b) == Gather(f, a) + Gather(f, b)
    decreases |b|
  {
    if b == [] {
      assert a + b == a;
    } else {
      var b' := b[..|b| - 1];
      assert (a + b)[..|a + b| - 1] == a + b';
      GatherAppend(f, a, b');
    }
  }

  /** Everything collected comes from some element. */
  lemma {:induction false} GatherSound<T, U>(f: T -> seq<U>, xs: seq<T>, y: U)
    requires y in Gather(f, xs)
    ensures exists k :: 0 <= k < |xs| && y in f(xs[k])
    decreases |xs|
  {
    var init := xs[..|xs| - 1];
    if y in Gather(f, init) {
      GatherSound(f, init, y);
      var k :| 0 <= k < |init| && y in f(init[k]);
      assert xs[k] == init[k];
    } else {
      assert y in f(xs[|xs| - 1]);
    }
  }

  /** Everything an element contributes is collected. */
  lemma {:induction false} GatherComplete<T, U>(f: T -> seq<U>, xs: seq<T>, k: nat, y: U)
    requires k < |xs| && y in f(xs[k])
    ensures y in Gather(f, xs)
    decreases |xs|
  {
    var init := xs[..|xs| - 1];
    if k < |init| {
      assert init[k] == xs[k];
      GatherComplete(f, init, k, y);
    }
  }

  /** Where every element contributes at most one value, at most one value
      per element is collected. */
  lemma {:induction false} GatherAtMostOne<T, U>(f: T -> seq<U>, xs: seq<T>)
    requires forall k :: 0 <= k < |xs| ==> |f(xs[k])| <= 1
    ensures |Gather(f, xs)| <= |xs|
    decreases |xs|
  {
    if xs != [] {
      var init := xs[..|xs| - 1];
      assert forall k :: 0 <= k < |init| ==> init[k] == xs[k];
      GatherAtMostOne(f, init);
    }
  }

  /** Two contributions that agree on every element collect the same. */
  lemma {:induction false} GatherAgree<T, U>(f: T -> seq<U>, g: T -> seq<U>, xs: seq<T>)
    requires forall k :: 0 <= k < |xs| ==> f(xs[k]) == g(xs[k])
    ensures Gather(f, xs) == Gather(g, xs)
    decreases |xs|
  {
    if xs != [] {
      var init := xs[..|xs| - 1];
      assert forall k :: 0 <= k < |init| ==> init[k] == xs[k];
      GatherAgree(f, g, init);
    }
  }

  // ---- numeric draws ----

  /** A span whose stripped text passes `isdigit()`. */
  predicate IsNumberToken(t: string) {
    IsDigits(Strip(t))
  }

  /** What one span contributes: its value when it is a digit token. */
  function TokenNumbers(t: string): seq<int> {
    if IsNumberToken(t) then [ParseNat(Strip(t))] else []
  }

  /** The `numbers` list the numeric parser builds: `int(text)` of every span
      whose stripped text is all digits, in document order. */
  function DigitNumbers(spans: seq<string>): seq<int> {
    Gather(TokenNumbers, spans)
  }

  /** Span `t` is a digit token whose value is `x`. */
  predicate YieldsNumber(t: string, x: int) {
    IsNumberToken(t) && ParseNat(Strip(t)) == x
  }

  /** Every extracted number is the value of some digit span. */
  lemma DigitNumbersSound(spans: seq<string>, x: int)
    requires x in DigitNumbers(spans)
    ensures exists k :: 0 <= k < |spans| && YieldsNumber(spans[k], x)
  {
    GatherSound(TokenNumbers, spans, x);
    var k :| 0 <= k < |spans| && x in TokenNumbers(spans[k]);
    assert YieldsNumber(spans[k], x);
  }

  /** The value of every digit span is among the extracted numbers. */
  lemma DigitNumbersComplete(spans: seq<string>, k: nat)
    requires k < |spans| && IsNumberToken(spans[k])
    ensures ParseNat(Strip(spans[k])) in DigitNumbers(spans)
  {
    assert ParseNat(Strip(spans[k])) in TokenNumbers(spans[k]);
    GatherComplete(TokenNumbers, spans, k, ParseNat(Strip(spans[k])));
  }

  /** Where the numeric parser looks: the spans of the first
      `.day_so_ket_qua_v2` container, else those of the first
      `.day_so_ket_qua` container, else nowhere. */
  function NumericSpans(page: ResultPage): (r: Option<seq<string>>)
    ensures |page.resultDivs| > 0 ==> r == Some(page.resultDivs[0].spans)
    ensures |page.resultDivs| == 0 ==> r == page.legacySpans
  {
    if |page.resultDivs| > 0 then Some(page.resultDivs[0].spans) else page.legacySpans
  }

  /** `_parse_power_response` on the selected parts of the page: a record
      exactly when the header parses, a result container exists and it holds
      at least `n` digit spans; its result is the first `n` of those numbers. */
  function ParsePower(page: ResultPage, n: nat, processTime: string): (r: Option<ParsedDraw>)
    ensures r.Some? <==>
      && ParseHeader(page.header).Some?
      && NumericSpans(page).Some?
      && |DigitNumbers(NumericSpans(page).value)| >= n
    ensures r.Some? ==>
      && r.value.record.id == ParseHeader(page.header).value.id
      && r.value.record.date == ParseHeader(page.header).value.date
      && r.value.record.result == Numbers(DigitNumbers(NumericSpans(page).value)[..n])
      && |r.value.record.result.values| == n
      && r.value.record.processTime == processTime
      && r.value.prevDrawId == PrevDrawId(page.prevHref)
  {
    match ParseHeader(page.header)
    case None => None
    case Some(fields) =>
      match NumericSpans(page)
      case None => None
      case Some(spans) =>
        var numbers := DigitNumbers(spans);
        if |numbers| < n then None
        else Some(ParsedDraw(DrawRecord(fields.date, fields.id, Numbers(numbers[..n]), processTime),
                             PrevDrawId(page.prevHref)))
  }

  /** Spans after the `n`-th number never change the numeric result. */
  lemma ParsePowerIgnoresTail(page: ResultPage, n: nat, t: string, more: seq<string>)
    requires |page.resultDivs| > 0 && |DigitNumbers(page.resultDivs[0].spans)| >= n
    ensures var div := page.resultDivs[0];
      var longer := page.(resultDivs := [div.(spans := div.spans + more)] + page.resultDivs[1..]);
      ParsePower(longer, n, t) == ParsePower(page, n, t)
  {
    var div := page.resultDivs[0];
    GatherAppend(TokenNumbers, div.spans, more);
    var all := DigitNumbers(div.spans + more);
    assert all[..n] == DigitNumbers(div.spans)[..n];
  }

  /** The numeric parser as the source runs it: one pass over the spans
      appending to `numbers`. */
  method ParsePowerResponse(page: ResultPage, n: nat, processTime: string) returns (r: Option<ParsedDraw>)
    ensures r == ParsePower(page, n, processTime)
  {
    var header := ParseHeader(page.header);
    if header.None? {
      return None;
    }
    var spans: seq<string>;
    if |page.resultDivs| > 0 {
      spans := page.resultDivs[0].spans;
    } else if page.legacySpans.Some? {
      spans := page.legacySpans.value;
    } else {
      return None;
    }
    var numbers: seq<int> := [];
    var i := 0;
    while i < |spans|
      invariant 0 <= i <= |spans|
      invariant numbers == DigitNumbers(spans[..i])
    {
      GatherStep(TokenNumbers, spans, i);
      var text := Strip(spans[i]);
      if IsDigits(text) {
        numbers := numbers + [ParseNat(text)];
      }
      i := i + 1;
    }
    assert spans[..|spans|] == spans;
    if |numbers| < n {
      return None;
    }
    r := Some(ParsedDraw(DrawRecord(header.value.date, header.value.id, Numbers(numbers[..n]), processTime),
                         PrevDrawId(page.prevHref)));
  }

  // ---- three-digit codes (Max 3D) ----

  /** A ball whose stripped text is a single digit. */
  predicate IsDigitBall(t: string) {
    |Strip(t)| == 1 && IsDigit(Strip(t)[0])
  }

  /** A container that holds a code: exactly three single-digit balls. */
  predicate IsCodeGroup(balls: seq<string>) {
    |balls| == 3 && IsDigitBall(balls[0]) && IsDigitBall(balls[1]) && IsDigitBall(balls[2])
  }

  /** A three-character code of decimal digits, "000" to "999". */
  predicate IsCode(s: string) {
    |s| == 3 && AllDigits(s)
  }

  function JoinBalls(balls: seq<string>): string
    requires |balls| == 3
  {
    Strip(balls[0]) + Strip(balls[1]) + Strip(balls[2])
  }

  /** What one container contributes: its code when it holds exactly three
      digit balls. */
  function DivCode(div: ResultDiv): seq<string> {
    if IsCodeGroup(div.balls) then [JoinBalls(div.balls)] else []
  }

  /** Each code spells its container's three balls, one character per ball:
      a code can be split back into the digits it came from. */
  lemma JoinBallsSplits(balls: seq<string>)
    requires IsCodeGroup(balls)
    ensures var c := JoinBalls(balls);
      IsCode(c) && [c[0]] == Strip(balls[0]) && [c[1]] == Strip(balls[1]) && [c[2]] == Strip(balls[2])
  {
  }

  /** The codes of the `.day_so_ket_qua_v2` containers that hold exactly
      three digit balls, in document order; other containers are skipped. */
  function TripletCodes(divs: seq<ResultDiv>): (r: seq<string>)
    ensures |r| <= |divs|
    ensures forall k :: 0 <= k < |r| ==> IsCode(r[k])
  {
    var r := Gather(DivCode, divs);
    GatherAtMostOne(DivCode, divs);
    assert forall k :: 0 <= k < |r| ==> IsCode(r[k]) by {
      forall k | 0 <= k < |r| ensures IsCode(r[k]) {
        assert r[k] in r;
        GatherSound(DivCode, divs, r[k]);
        var j :| 0 <= j < |divs| && r[k] in DivCode(divs[j]);
        JoinBallsSplits(divs[j].balls);
      }
    }
    r
  }

  /** Every code comes from a container of three single-digit balls, and
      spells them. */
  lemma TripletCodesSound(divs: seq<ResultDiv>, c: string)
    requires c in TripletCodes(divs)
    ensures exists k :: 0 <= k < |divs| && IsCodeGroup(divs[k].balls) && c == JoinBalls(divs[k].balls)
  {
    GatherSound(DivCode, divs, c);
    var k :| 0 <= k < |divs| && c in DivCode(divs[k]);
    assert IsCodeGroup(divs[k].balls) && c == JoinBalls(divs[k].balls);
  }

  /** Every container of three single-digit balls contributes its code. */
  lemma TripletCodesComplete(divs: seq<ResultDiv>, k: nat)
    requires k < |divs| && IsCodeGroup(divs[k].balls)
    ensures JoinBalls(divs[k].balls) in TripletCodes(divs)
  {
    GatherComplete(DivCode, divs, k, JoinBalls(divs[k].balls));
  }

  /** Codes keep document order: the codes of two runs of containers are
      those of the first run followed by those of the second. */
  lemma TripletCodesAppend(a: seq<ResultDiv>, b: seq<ResultDiv>)
    ensures TripletCodes(a + b) == TripletCodes(a) + TripletCodes(b)
  {
    GatherAppend(DivCode, a, b);
  }

  /** The code parser's group test exactly as written: non-empty, every
      stripped ball text passes `isdigit()`, and three balls. A ball text of
      several digits passes it. */
  predicate IsCodeGroupAsWritten(balls: seq<string>) {
    |balls| > 0 && (forall k :: 0 <= k < |balls| ==> IsDigits(Strip(balls[k]))) && |balls| == 3
  }

  /** What one container contributes under the test as written. */
  function DivCodeAsWritten(div: ResultDiv): seq<string> {
    if IsCodeGroupAsWritten(div.balls) then [JoinBalls(div.balls)] else []
  }

  /** The codes the source collects with that test. */
  function TripletCodesAsWritten(divs: seq<ResultDiv>): seq<string> {
    Gather(DivCodeAsWritten, divs)
  }

  /** A string of digits has no whitespace to strip. */
  lemma StripDigits(s: string)
    requires IsDigits(s)
    ensures Strip(s) == s
  {
    StripPadded([], s, []);
    assert [] + s + [] == s;
  }

  /** As written, a container of three balls whose texts are digit strings
      of any length yields their concatenation, which is no code unless each
      ball holds exactly one digit. */
  lemma AsWrittenJoinsDigitStrings(spans: seq<string>, a: string, b: string, c: string)
    requires IsDigits(a) && IsDigits(b) && IsDigits(c)
    ensures TripletCodesAsWritten([ResultDiv(spans, [a, b, c])]) == [a + b + c]
    ensures IsCode(a + b + c) <==> |a| == 1 && |b| == 1 && |c| == 1
  {
    AsWrittenGroupJoins(a, b, c);
    GatherSingle(DivCodeAsWritten, ResultDiv(spans, [a, b, c]));
    JoinedDigitsCode(a, b, c);
  }

  /** Three digit strings pass the source's ball test and join unchanged. */
  lemma AsWrittenGroupJoins(a: string, b: string, c: string)
    requires IsDigits(a) && IsDigits(b) && IsDigits(c)
    ensures IsCodeGroupAsWritten([a, b, c]) && JoinBalls([a, b, c]) == a + b + c
  {
    StripDigits(a);
    StripDigits(b);
    StripDigits(c);
  }

  /** Three joined digit strings make a code exactly when each is one digit. */
  lemma JoinedDigitsCode(a: string, b: string, c: string)
    requires IsDigits(a) && IsDigits(b) && IsDigits(c)
    ensures IsCode(a + b + c) <==> |a| == 1 && |b| == 1 && |c| == 1
  {
    if |a| == 1 && |b| == 1 && |c| == 1 {
      var code := a + b + c;
      assert code[0] == a[0] && code[1] == b[0] && code[2] == c[0];
    }
  }

  /** As written, a container whose balls read "12", "3", "4" yields the
      four-character code "1234". */
  lemma AsWrittenAcceptsLongBall()
    ensures var codes := TripletCodesAsWritten([ResultDiv([], ["12", "3", "4"])]);
      codes == ["1234"] && !IsCode(codes[0])
  {
    assert IsDigits("12") && IsDigits("3") && IsDigits("4");
    AsWrittenJoinsDigitStrings([], "12", "3", "4");
    assert "12" + "3" + "4" == "1234";
  }

  /** Every ball of the container strips to at most one character. */
  predicate SingleCharacterBalls(div: ResultDiv) {
    forall m :: 0 <= m < |div.balls| ==> |Strip(div.balls[m])| <= 1
  }

  lemma BallTestsAgree(b: string)
    requires |Strip(b)| <= 1
    ensures IsDigits(Strip(b)) <==> IsDigitBall(b)
  {
  }

  /** Where every ball holds at most one character, the test as written and
      the corrected one collect the same codes. */
  lemma AsWrittenAgreesOnSingleCharacterBalls(divs: seq<ResultDiv>)
    requires forall k :: 0 <= k < |divs| ==> SingleCharacterBalls(divs[k])
    ensures TripletCodesAsWritten(divs) == TripletCodes(divs)
  {
    forall k | 0 <= k < |divs| ensures DivCodeAsWritten(divs[k]) == DivCode(divs[k]) {
      var balls := divs[k].balls;
      assert SingleCharacterBalls(divs[k]);
      if |balls| == 3 {
        BallTestsAgree(balls[0]);
        BallTestsAgree(balls[1]);
        BallTestsAgree(balls[2]);
        assert IsCodeGroupAsWritten(balls) <==> IsCodeGroup(balls);
      }
    }
    GatherAgree(DivCodeAsWritten, DivCode, divs);
  }

  /** `_parse_max3d_response` on the selected parts of the page (with the
      corrected group test): a record exactly when the header parses and at
      least two codes are found; its result is every code, in order. */
  function ParseMax3D(page: ResultPage, processTime: string): (r: Option<ParsedDraw>)
    ensures r.Some? <==> ParseHeader(page.header).Some? && |TripletCodes(page.resultDivs)| >= 2
    ensures r.Some? ==>
      && r.value.record.id == ParseHeader(page.header).value.id
      && r.value.record.date == ParseHeader(page.header).value.date
      && r.value.record.result == Codes(TripletCodes(page.resultDivs))
      && r.value.record.processTime == processTime
      && r.value.prevDrawId == PrevDrawId(page.prevHref)
  {
    match ParseHeader(page.header)
    case None => None
    case Some(fields) =>
      var codes := TripletCodes(page.resultDivs);
      if |codes| < 2 then None
      else Some(ParsedDraw(DrawRecord(fields.date, fields.id, Codes(codes), processTime),
                           PrevDrawId(page.prevHref)))
  }

  /** The code parser as the source runs it: one pass over the containers
      appending to `numbers`. */
  method ParseMax3DResponse(page: ResultPage, processTime: string) returns (r: Option<ParsedDraw>)
    ensures r == ParseMax3D(page, processTime)
  {
    var header := ParseHeader(page.header);
    if header.None? {
      return None;
    }
    var divs := page.resultDivs;
    var numbers: seq<string> := [];
    var i := 0;
    while i < |divs|
      invariant 0 <= i <= |divs|
      invariant numbers == Gather(DivCode, divs[..i])
    {
      GatherStep(DivCode, divs, i);
      var balls := divs[i].balls;
      if |balls| > 0 && IsCodeGroup(balls) {
        numbers := numbers + [JoinBalls(balls)];
      }
      i := i + 1;
    }
    assert divs[..|divs|] == divs;
    assert numbers == TripletCodes(divs);
    if |numbers| < 2 {
      return None;
    }
    r := Some(ParsedDraw(DrawRecord(header.value.date, header.value.id, Codes(numbers), processTime),
                         PrevDrawId(page.prevHref)));
  }

  // ---- dispatch ----

  /** `_parse_response`: "max3d" products get the code parser, every other
      product type (power, keno) the numeric one. A numeric record carries
      exactly `numbersToPick` numbers, a code record at least two
      three-digit codes; the id is all digits, the date is `yyyy-mm-dd`, and
      a cursor, when present, is all digits. */
  function ParseResponse(config: LotteryConfig, page: ResultPage, processTime: string): (r: Option<ParsedDraw>)
    ensures config.productType == "max3d" ==> r == ParseMax3D(page, processTime)
    ensures config.productType != "max3d" ==> r == ParsePower(page, config.numbersToPick, processTime)
    ensures r.Some? ==> IsDigits(r.value.record.id) && IsoShaped(r.value.record.date)
    ensures r.Some? && r.value.prevDrawId.Some? ==> IsDigits(r.value.prevDrawId.value)
    ensures r.Some? && config.productType == "max3d" ==>
      && r.value.record.result.Codes?
      && |r.value.record.result.codes| >= 2
      && forall k :: 0 <= k < |r.value.record.result.codes| ==> IsCode(r.value.record.result.codes[k])
    ensures r.Some? && config.productType != "max3d" ==>
      r.value.record.result.Numbers? && |r.value.record.result.values| == config.numbersToPick
  {
    if config.productType == "max3d" then ParseMax3D(page, processTime)
    else ParsePower(page, config.numbersToPick, processTime)
  }

  // ---- one fetch ----

  /** What lies beyond this model: the HTTP post (None for a network error,
      a non-success status or a reply that is not JSON), the HTML selector
      that picks the parsed parts out of a fragment, and the clock that
      stamps `process_time` for the fetch of a given cursor. */
  datatype Remote = Remote(
    post: (string, Json) -> Option<Json>,
    select: string -> ResultPage,
    clock: string -> string)

  /** `res_json.get("value", {}).get("RetExtraParam1", "")`, kept only when it
      is a non-empty string; any other shape ends the fetch. */
  function ResponseHtml(reply: Json): (r: Option<string>)
    ensures r.Some? <==>
      && reply.JObject? && Get(reply.members, "value").Some?
      && Get(reply.members, "value").value.JObject?
      && Get(Get(reply.members, "value").value.members, "RetExtraParam1").Some?
      && Get(Get(reply.members, "value").value.members, "RetExtraParam1").value.JString?
      && Get(Get(reply.members, "value").value.members, "RetExtraParam1").value.s != []
    ensures r.Some? ==> r.value == Get(Get(reply.members, "value").value.members, "RetExtraParam1").value.s
  {
    match reply
    case JObject(members) =>
      (match Get(members, "value")
       case Some(JObject(inner)) =>
         (match Get(inner, "RetExtraParam1")
          case Some(JString(html)) => if html != [] then Some(html) else None
          case _ => None)
       case _ => None)
    case _ => None
  }

  /** A reply that carries a fragment under `value.RetExtraParam1` gives it back. */
  lemma ResponseHtmlOfReply(html: string)
    requires html != []
    ensures ResponseHtml(JObject([("value", JObject([("RetExtraParam1", JString(html))]))])) == Some(html)
  {
  }

  /** `fetch_draw`: post the body for `cursor` to the crawler's endpoint, take
      the fragment out of the reply and parse it for the crawler's product.
      A record only comes from a successful post of the body that names
      `cursor`. */
  function FetchDraw(crawler: Crawler, remote: Remote, cursor: string): (r: Option<ParsedDraw>)
    ensures r.Some? ==> remote.post(crawler.endpoint, BuildRequestBody(crawler.key, cursor)).Some?
    ensures r.Some? ==> exists html :: html != [] && r == ParseResponse(crawler.config, remote.select(html), remote.clock(cursor))
    ensures var reply := remote.post(crawler.endpoint, BuildRequestBody(crawler.key, cursor));
      reply.None? || ResponseHtml(reply.value).None? ==> r.None?
    ensures var reply := remote.post(crawler.endpoint, BuildRequestBody(crawler.key, cursor));
      reply.Some? && ResponseHtml(reply.value).Some? ==>
        r == ParseResponse(crawler.config, remote.select(ResponseHtml(reply.value).value), remote.clock(cursor))
  {
    match remote.post(crawler.endpoint, BuildRequestBody(crawler.key, cursor))
    case None => None
    case Some(reply) =>
      match ResponseHtml(reply)
      case None => None
      case Some(html) => ParseResponse(crawler.config, remote.select(html), remote.clock(cursor))
  }
}
