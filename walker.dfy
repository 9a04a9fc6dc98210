/** The pagination walker: starting from the latest draw, fetch a draw,
    stop on a failed fetch or on an id the store already holds, keep the
    record without its cursor, and follow the cursor back to the previous
    draw, for at most a given number of fetches. */
module Walker {
  import opened Draws

  /** One fetch: the parsed draw for a cursor ("" asks for the latest), or
      nothing when the transport or the parser fails. */
  type Fetch = string -> Option<ParsedDraw>

  /** `if prev_draw_id:` holds: the draw links to a non-empty previous id. */
  predicate Continues(p: ParsedDraw) {
    p.prevDrawId.Some? && p.prevDrawId.value != ""
  }

  /** What one pass of the loop does with the result of its fetch: stop
      without keeping anything, keep the record and stop, or keep the record
      and move the cursor to the previous draw. */
  datatype Step =
    | Stop
    | Last(record: DrawRecord)
    | Link(record: DrawRecord, next: string)

  /** The step for the fetch at `cursor`: a failed fetch and a known id
      stop; a draw without a previous link is the last one kept. */
  function StepAt(fetch: Fetch, known: set<string>, cursor: string): (s: Step)
    ensures s.Stop? <==> fetch(cursor).None? || fetch(cursor).value.record.id in known
    ensures !s.Stop? ==> s.record == fetch(cursor).value.record
    ensures s.Last? <==> fetch(cursor).Some? && fetch(cursor).value.record.id !in known && !Continues(fetch(cursor).value)
    ensures s.Link? ==> Continues(fetch(cursor).value) && s.next == fetch(cursor).value.prevDrawId.value
  {
    match fetch(cursor)
    case None => Stop
    case Some(p) =>
      if p.record.id in known then Stop
      else if Continues(p) then Link(p.record, p.prevDrawId.value)
      else Last(p.record)
  }

  /** `range(max_records)` runs `max_records` times, and not at all when it is
      zero or negative. */
  function Budget(maxRecords: int): (n: nat)
    ensures maxRecords <= 0 ==> n == 0
    ensures maxRecords > 0 ==> n == maxRecords
  {
    if maxRecords > 0 then maxRecords else 0
  }

  /** `existing_ids`, with a missing set read as the empty set. */
  function KnownIds(existingIds: Option<set<string>>): set<string> {
    match existingIds
    case None => {}
    case Some(ids) => ids
  }

  /** The records a walk of at most `budget` fetches from `cursor` collects,
      newest first. */
  function Walk(fetch: Fetch, known: set<string>, budget: nat, cursor: string): seq<DrawRecord>
    decreases budget
  {
    if budget == 0 then []
    else
      match StepAt(fetch, known, cursor)
      case Stop => []
      case Last(r) => [r]
      case Link(r, next) => [r] + Walk(fetch, known, budget - 1, next)
  }

  /** The cursors that walk hands to `fetch`, in order. */
  function Fetches(fetch: Fetch, known: set<string>, budget: nat, cursor: string): seq<string>
    decreases budget
  {
    if budget == 0 then []
    else
      match StepAt(fetch, known, cursor)
      case Link(_, next) => [cursor] + Fetches(fetch, known, budget - 1, next)
      case _ => [cursor]
  }

  /** A walk makes at most `budget` fetches, the first with the cursor it
      starts from, and keeps at most one record per fetch; at most the last
      fetch yields no record. */
  lemma {:induction false} WalkBounds(fetch: Fetch, known: set<string>, budget: nat, cursor: string)
    ensures |Walk(fetch, known, budget, cursor)| <= |Fetches(fetch, known, budget, cursor)| <= budget
    ensures |Fetches(fetch, known, budget, cursor)| <= |Walk(fetch, known, budget, cursor)| + 1
    ensures budget > 0 ==> |Fetches(fetch, known, budget, cursor)| > 0 && Fetches(fetch, known, budget, cursor)[0] == cursor
    decreases budget
  {
    if budget > 0 && StepAt(fetch, known, cursor).Link? {
      WalkBounds(fetch, known, budget - 1, StepAt(fetch, known, cursor).next);
    }
  }

  /** No record a walk keeps has an id in the known set. */
  lemma {:induction false} WalkFresh(fetch: Fetch, known: set<string>, budget: nat, cursor: string)
    ensures forall k :: 0 <= k < |Walk(fetch, known, budget, cursor)| ==> Walk(fetch, known, budget, cursor)[k].id !in known
    decreases budget
  {
    if budget > 0 && StepAt(fetch, known, cursor).Link? {
      WalkFresh(fetch, known, budget - 1, StepAt(fetch, known, cursor).next);
    }
  }

  /** The `k`-th record is what the `k`-th fetch returned (without its
      cursor), and the next fetch uses the cursor of that draw. */
  lemma {:induction false} WalkFollowsChain(fetch: Fetch, known: set<string>, budget: nat, cursor: string, k: nat)
    requires k < |Walk(fetch, known, budget, cursor)|
    ensures var fs := Fetches(fetch, known, budget, cursor);
      && k < |fs|
      && fetch(fs[k]).Some?
      && fetch(fs[k]).value.record == Walk(fetch, known, budget, cursor)[k]
      && (k + 1 < |fs| ==> Continues(fetch(fs[k]).value) && fetch(fs[k]).value.prevDrawId.value == fs[k + 1])
    decreases budget
  {
    var s := StepAt(fetch, known, cursor);
    if s.Link? {
      WalkBounds(fetch, known, budget - 1, s.next);
      if k > 0 {
        WalkFollowsChain(fetch, known, budget - 1, s.next, k - 1);
      }
    }
  }

  /** Why a walk ends, first case: if its last fetch kept nothing, that
      fetch failed or returned a draw whose id is known. */
  lemma {:induction false} WalkStopsAtGate(fetch: Fetch, known: set<string>, budget: nat, cursor: string)
    ensures var w, fs := Walk(fetch, known, budget, cursor), Fetches(fetch, known, budget, cursor);
      |fs| == |w| + 1 ==> fetch(fs[|w|]).None? || fetch(fs[|w|]).value.record.id in known
    decreases budget
  {
    if budget > 0 && StepAt(fetch, known, cursor).Link? {
      var next := StepAt(fetch, known, cursor).next;
      WalkStopsAtGate(fetch, known, budget - 1, next);
      var w', fs' := Walk(fetch, known, budget - 1, next), Fetches(fetch, known, budget - 1, next);
      var w, fs := Walk(fetch, known, budget, cursor), Fetches(fetch, known, budget, cursor);
      if |fs'| == |w'| + 1 {
        assert fs[|w|] == fs'[|w'|];
      }
    }
  }

  /** Why a walk ends, second case: if its last fetch kept a record and
      fetches remained, that draw had no previous link. */
  lemma {:induction false} WalkStopsAtLastLink(fetch: Fetch, known: set<string>, budget: nat, cursor: string)
    ensures var w, fs := Walk(fetch, known, budget, cursor), Fetches(fetch, known, budget, cursor);
      |fs| == |w| && 0 < |w| < budget ==> fetch(fs[|w| - 1]).Some? && !Continues(fetch(fs[|w| - 1]).value)
    decreases budget
  {
    if budget > 0 {
      match StepAt(fetch, known, cursor)
      case Stop =>
      case Last(_) =>
        assert Fetches(fetch, known, budget, cursor) == [cursor];
      case Link(_, next) =>
        WalkStopsAtLastLink(fetch, known, budget - 1, next);
        WalkBounds(fetch, known, budget - 1, next);
        var w', fs' := Walk(fetch, known, budget - 1, next), Fetches(fetch, known, budget - 1, next);
        var w, fs := Walk(fetch, known, budget, cursor), Fetches(fetch, known, budget, cursor);
        if |fs| == |w| && |w| < budget {
          assert fs[|w| - 1] == fs'[|w'| - 1];
        }
    }
  }

  /** A larger budget only extends a walk: the smaller walk is a prefix, and
      a walk that ended before its budget ran out is the same with any
      larger budget. */
  lemma {:induction false} WalkMonotone(fetch: Fetch, known: set<string>, budget: nat, more: nat, cursor: string)
    requires budget <= more
    ensures var w, w' := Walk(fetch, known, budget, cursor), Walk(fetch, known, more, cursor);
      |w| <= |w'| && w == w'[..|w|] && (|w| < budget ==> w' == w)
    decreases budget
  {
    if budget > 0 && StepAt(fetch, known, cursor).Link? {
      WalkMonotone(fetch, known, budget - 1, more - 1, StepAt(fetch, known, cursor).next);
    }
  }

  /** The next `steps` fetches from `cursor` each return a draw whose id is
      not known and that links back. */
  predicate Unbroken(fetch: Fetch, known: set<string>, steps: nat, cursor: string)
    decreases steps
  {
    steps == 0 ||
      (StepAt(fetch, known, cursor).Link? && Unbroken(fetch, known, steps - 1, StepAt(fetch, known, cursor).next))
  }

  /** Along a chain of draws that all link back, none of whose ids is known,
      the walk collects exactly `budget` records. */
  lemma {:induction false} WalkFillsBudget(fetch: Fetch, known: set<string>, budget: nat, cursor: string)
    requires Unbroken(fetch, known, budget, cursor)
    ensures |Walk(fetch, known, budget, cursor)| == budget
    decreases budget
  {
    if budget > 0 {
      WalkFillsBudget(fetch, known, budget - 1, StepAt(fetch, known, cursor).next);
    }
  }

  /** The walker checks ids only against the ids it was given: a draw whose
      previous link points back to itself is collected once per fetch. */
  lemma SelfLinkRepeats(r: DrawRecord)
    ensures var fetch := (c: string) => Some(ParsedDraw(r.(id := "5"), Some("5")));
      Walk(fetch, {}, 3, "") == [r.(id := "5"), r.(id := "5"), r.(id := "5")]
  {
  }

  lemma Associate<T>(a: seq<T>, b: seq<T>, c: seq<T>)
    ensures (a + b) + c == a + (b + c)
  {
  }

  lemma AppendEmpty<T>(a: seq<T>)
    ensures a + [] == a
  {
  }

  /** What a crawl that already holds `acc` ends with, given `budget` more
      fetches from `cursor`: the accumulator form of `Walk`. */
  function Resume(fetch: Fetch, known: set<string>, budget: nat, cursor: string, acc: seq<DrawRecord>): seq<DrawRecord>
    decreases budget
  {
    if budget == 0 then acc
    else
      match StepAt(fetch, known, cursor)
      case Stop => acc
      case Last(r) => acc + [r]
      case Link(r, next) => Resume(fetch, known, budget - 1, next, acc + [r])
  }

  /** Resuming with `acc` appends the walk to `acc`. */
  lemma {:induction false} ResumeIsWalk(fetch: Fetch, known: set<string>, budget: nat, cursor: string, acc: seq<DrawRecord>)
    ensures Resume(fetch, known, budget, cursor, acc) == acc + Walk(fetch, known, budget, cursor)
    decreases budget
  {
    var s := StepAt(fetch, known, cursor);
    if budget > 0 && s.Link? {
      ResumeIsWalk(fetch, known, budget - 1, s.next, acc + [s.record]);
      Associate(acc, [s.record], Walk(fetch, known, budget - 1, s.next));
    } else {
      AppendEmpty(acc);
    }
  }

  /** `crawl`: the loop as the source runs it, with the cursor, the list of
      records and the loop counter. It returns the walk from the latest draw
      bounded by `max_records`: at most that many records, none of them with
      an id in `existing_ids`. The cursors it hands to `fetch`, in order,
      are those of the walk. */
  method Crawl(fetch: Fetch, maxRecords: int, existingIds: Option<set<string>>)
    returns (records: seq<DrawRecord>, ghost fetched: seq<string>)
    ensures records == Walk(fetch, KnownIds(existingIds), Budget(maxRecords), "")
    ensures fetched == Fetches(fetch, KnownIds(existingIds), Budget(maxRecords), "")
    ensures |records| <= Budget(maxRecords)
    ensures forall k :: 0 <= k < |records| ==> records[k].id !in KnownIds(existingIds)
  {
    var known := KnownIds(existingIds);
    var n := Budget(maxRecords);
    records := [];
    var cursor := "";
    fetched := [];
    for i := 0 to n
      invariant Resume(fetch, known, n - i, cursor, records) == Resume(fetch, known, n, "", [])
      invariant fetched + Fetches(fetch, known, n - i, cursor) == Fetches(fetch, known, n, "")
    {
      fetched := fetched + [cursor];
      var result := fetch(cursor);
      if result.None? {
        break;
      }
      var current := result.value;
      if current.record.id in known {
        break;
      }
      var prev := current.prevDrawId;
      records := records + [current.record];
      if prev.Some? && prev.value != "" {
        cursor := prev.value;
      } else {
        break;
      }
    }
    ResumeIsWalk(fetch, known, n, "", []);
    assert [] + Walk(fetch, known, n, "") == Walk(fetch, known, n, "");
    WalkBounds(fetch, known, n, "");
    WalkFresh(fetch, known, n, "");
  }
}
