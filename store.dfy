/** The product store and `update_data`: the stored records of a product, the
    ids they hold, the crawl bounded by `pages * 10` that stops at a stored
    id, the second filter against the stored ids, and the stable sort by
    `date` of stored plus new records that is written back. */
module Store {
  import opened Draws
  import opened Text
  import opened Walker
  import opened RequestBuilder
  import opened ResponseParser

  // ---- ids ----

  /** `set(r["id"] for r in s)`. */
  function IdsOf(s: seq<DrawRecord>): (ids: set<string>)
    ensures forall k :: 0 <= k < |s| ==> s[k].id in ids
  {
    if s == [] then {} else IdsOf(s[..|s| - 1]) + {s[|s| - 1].id}
  }

  /** Every id in `IdsOf(s)` is the id of a record of `s`. */
  lemma {:induction false} IdsOfSound(s: seq<DrawRecord>, id: string)
    requires id in IdsOf(s)
    ensures exists k :: 0 <= k < |s| && s[k].id == id
  {
    if id != s[|s| - 1].id {
      IdsOfSound(s[..|s| - 1], id);
      var k :| 0 <= k < |s| - 1 && s[..|s| - 1][k].id == id;
      assert s[k].id == id;
    }
  }

  /** No two records share an id. */
  predicate UniqueIds(s: seq<DrawRecord>) {
    forall i, j :: 0 <= i < j < |s| ==> s[i].id != s[j].id
  }

  /** Sequences with the same elements hold the same ids. */
  lemma SameElementsSameIds(a: seq<DrawRecord>, b: seq<DrawRecord>)
    requires forall e :: e in a <==> e in b
    ensures IdsOf(a) == IdsOf(b)
  {
    forall id | id in IdsOf(a) ensures id in IdsOf(b) {
      IdsOfSound(a, id);
      var k :| 0 <= k < |a| && a[k].id == id;
      assert a[k] in b;
    }
    forall id | id in IdsOf(b) ensures id in IdsOf(a) {
      IdsOfSound(b, id);
      var k :| 0 <= k < |b| && b[k].id == id;
      assert b[k] in a;
    }
  }

  // ---- the stable sort by date ----

  /** Ordered by the `date` key as Python compares strings: no record has a
      date smaller than one before it. */
  predicate DateSorted(s: seq<DrawRecord>) {
    forall i, j :: 0 <= i < j < |s| ==> !Less(s[j].date, s[i].date)
  }

  /** Place `x` before the first record whose date is not smaller than its
      own; `x` stays ahead of records with its date. */
  function Insert(x: DrawRecord, t: seq<DrawRecord>): seq<DrawRecord> {
    if t == [] || !Less(t[0].date, x.date) then [x] + t
    else [t[0]] + Insert(x, t[1..])
  }

  /** `list.sort(key=lambda r: r["date"])`: a stable sort by the date string. */
  function SortByDate(s: seq<DrawRecord>): seq<DrawRecord> {
    if s == [] then [] else Insert(s[0], SortByDate(s[1..]))
  }

  lemma {:induction false} InsertPermutes(x: DrawRecord, t: seq<DrawRecord>)
    ensures multiset(Insert(x, t)) == multiset([x] + t)
    ensures forall e :: e in Insert(x, t) <==> e == x || e in t
  {
    if t != [] && Less(t[0].date, x.date) {
      InsertPermutes(x, t[1..]);
      assert t == [t[0]] + t[1..];
    }
    assert forall e :: e in Insert(x, t) <==> e in multiset(Insert(x, t));
  }

  /** The sort keeps every record, as often as it occurs. */
  lemma {:induction false} SortPermutes(s: seq<DrawRecord>)
    ensures multiset(SortByDate(s)) == multiset(s)
    ensures forall e :: e in SortByDate(s) <==> e in s
  {
    if s != [] {
      SortPermutes(s[1..]);
      InsertPermutes(s[0], SortByDate(s[1..]));
      assert s == [s[0]] + s[1..];
    }
    assert forall e :: e in SortByDate(s) <==> e in multiset(SortByDate(s));
  }

  lemma {:induction false} InsertSorted(x: DrawRecord, t: seq<DrawRecord>)
    requires DateSorted(t)
    ensures DateSorted(Insert(x, t))
  {
    if t == [] {
    } else if !Less(t[0].date, x.date) {
      var r := [x] + t;
      forall i, j | 0 <= i < j < |r| ensures !Less(r[j].date, r[i].date) {
        if i == 0 && j > 1 {
          NotLessTransitive(x.date, t[0].date, t[j - 1].date);
        }
      }
    } else {
      var rest := Insert(x, t[1..]);
      InsertSorted(x, t[1..]);
      InsertPermutes(x, t[1..]);
      LessAsymmetric(t[0].date, x.date);
      var r := [t[0]] + rest;
      forall i, j | 0 <= i < j < |r| ensures !Less(r[j].date, r[i].date) {
        if i == 0 {
          assert r[j] in rest;
          if r[j] != x {
            var m :| 0 <= m < |t[1..]| && t[1..][m] == r[j];
            assert t[m + 1] == r[j];
          }
        }
      }
    }
  }

  /** The sort's output is ordered by date. */
  lemma {:induction false} SortSorted(s: seq<DrawRecord>)
    ensures DateSorted(SortByDate(s))
  {
    if s != [] {
      SortSorted(s[1..]);
      InsertSorted(s[0], SortByDate(s[1..]));
    }
  }

  /** The records dated `d`, in their order. */
  function WithDate(s: seq<DrawRecord>, d: string): seq<DrawRecord> {
    if s == [] then []
    else (if s[0].date == d then [s[0]] else []) + WithDate(s[1..], d)
  }

  lemma {:induction false} InsertStable(x: DrawRecord, t: seq<DrawRecord>, d: string)
    ensures WithDate(Insert(x, t), d) == WithDate([x] + t, d)
  {
    if t != [] && Less(t[0].date, x.date) {
      LessIrreflexive(x.date);
      var rest := Insert(x, t[1..]);
      InsertStable(x, t[1..], d);
      assert ([t[0]] + rest)[1..] == rest;
      assert ([x] + t)[1..] == t;
      assert ([x] + t[1..])[1..] == t[1..];
    }
  }

  /** Stability: records with the same date keep their relative order. */
  lemma {:induction false} SortStable(s: seq<DrawRecord>, d: string)
    ensures WithDate(SortByDate(s), d) == WithDate(s, d)
  {
    if s != [] {
      SortStable(s[1..], d);
      InsertStable(s[0], SortByDate(s[1..]), d);
      assert ([s[0]] + SortByDate(s[1..]))[1..] == SortByDate(s[1..]);
    }
  }

  /** A record whose id no record of `s` has can go in front of `s`. */
  lemma ConsUnique(y: DrawRecord, s: seq<DrawRecord>)
    requires UniqueIds(s)
    requires forall k :: 0 <= k < |s| ==> s[k].id != y.id
    ensures UniqueIds([y] + s)
  {
    var r := [y] + s;
    forall i, j | 0 <= i < j < |r| ensures r[i].id != r[j].id {
      assert r[j] == s[j - 1];
      if i > 0 {
        assert r[i] == s[i - 1];
      }
    }
  }

  lemma {:induction false} InsertUnique(x: DrawRecord, t: seq<DrawRecord>)
    requires UniqueIds(t) && x.id !in IdsOf(t)
    ensures UniqueIds(Insert(x, t))
  {
    if t == [] || !Less(t[0].date, x.date) {
      ConsUnique(x, t);
    } else {
      var tail := t[1..];
      forall k | 0 <= k < |tail| ensures tail[k].id != x.id && tail[k].id != t[0].id {
        assert tail[k] == t[k + 1];
      }
      assert UniqueIds(tail) by {
        forall i, j | 0 <= i < j < |tail| ensures tail[i].id != tail[j].id {
          assert tail[i] == t[i + 1] && tail[j] == t[j + 1];
        }
      }
      forall id | id in IdsOf(tail) ensures id != x.id {
        IdsOfSound(tail, id);
      }
      InsertUnique(x, tail);
      InsertPermutes(x, tail);
      var rest := Insert(x, tail);
      forall k | 0 <= k < |rest| ensures rest[k].id != t[0].id {
        assert rest[k] in rest;
        if rest[k] != x {
          var m :| 0 <= m < |tail| && tail[m] == rest[k];
        }
      }
      ConsUnique(t[0], rest);
    }
  }

  /** The sort keeps ids unique. */
  lemma {:induction false} SortUnique(s: seq<DrawRecord>)
    requires UniqueIds(s)
    ensures UniqueIds(SortByDate(s))
  {
    if s != [] {
      SortUnique(s[1..]);
      SortPermutes(s[1..]);
      SameElementsSameIds(SortByDate(s[1..]), s[1..]);
      forall id | id in IdsOf(s[1..]) ensures id != s[0].id {
        IdsOfSound(s[1..], id);
        var k :| 0 <= k < |s[1..]| && s[1..][k].id == id;
        assert s[1..][k] == s[k + 1];
      }
      InsertUnique(s[0], SortByDate(s[1..]));
    }
  }

  // ---- the merge ----

  /** `[r for r in new_data if r["id"] not in existing_ids]`. */
  function NewRecords(newData: seq<DrawRecord>, ids: set<string>): (r: seq<DrawRecord>)
    ensures |r| <= |newData|
    ensures forall k :: 0 <= k < |r| ==> r[k] in newData && r[k].id !in ids
    ensures forall k :: 0 <= k < |newData| && newData[k].id !in ids ==> newData[k] in r
  {
    if newData == [] then []
    else
      var last := newData[|newData| - 1];
      NewRecords(newData[..|newData| - 1], ids) + (if last.id in ids then [] else [last])
  }

  /** When the crawl already stopped at stored ids, the second filter keeps
      every crawled record. */
  lemma {:induction false} SecondFilterRedundant(newData: seq<DrawRecord>, ids: set<string>)
    requires forall k :: 0 <= k < |newData| ==> newData[k].id !in ids
    ensures NewRecords(newData, ids) == newData
  {
    if newData != [] {
      var front := newData[..|newData| - 1];
      SecondFilterRedundant(front, ids);
      assert front + [newData[|newData| - 1]] == newData;
    }
  }

  lemma {:induction false} NewRecordsUnique(newData: seq<DrawRecord>, ids: set<string>)
    requires UniqueIds(newData)
    ensures UniqueIds(NewRecords(newData, ids))
  {
    if newData != [] {
      var front := newData[..|newData| - 1];
      var last := newData[|newData| - 1];
      NewRecordsUnique(front, ids);
      var kept := NewRecords(front, ids);
      forall k | 0 <= k < |kept| ensures kept[k].id != last.id {
        var m :| 0 <= m < |front| && front[m] == kept[k];
      }
    }
  }

  /** The filter keeps order and looks at each record on its own: filtering
      two runs gives the filtered first run followed by the filtered second. */
  lemma {:induction false} NewRecordsAppend(a: seq<DrawRecord>, b: seq<DrawRecord>, ids: set<string>)
    ensures NewRecords(a + b, ids) == NewRecords(a, ids) + NewRecords(b, ids)
    decreases |b|
  {
    if b == [] {
      assert a + b == a;
    } else {
      var front := b[..|b| - 1];
      assert (a + b)[..|a + b| - 1] == a + front;
      NewRecordsAppend(a, front, ids);
    }
  }

  /** One record is kept exactly when its id is not stored. */
  lemma NewRecordsSingle(x: DrawRecord, ids: set<string>)
    ensures NewRecords([x], ids) == if x.id in ids then [] else [x]
  {
    assert [x][..0] == [];
  }

  /** What `update_data` reports and writes: the number of new records, and
      the whole new file contents, or no write at all. */
  datatype Outcome = Outcome(added: nat, written: Option<seq<DrawRecord>>)

  /** The stored records, none when the data file does not exist. */
  function StoredRows(stored: Option<seq<DrawRecord>>): seq<DrawRecord> {
    match stored
    case None => []
    case Some(rows) => rows
  }

  /** The merge after the crawl: nothing crawled, or nothing new, writes
      nothing and reports 0; otherwise stored plus new records are written
      sorted by date and the count of new records is reported. */
  function Merge(existing: seq<DrawRecord>, newData: seq<DrawRecord>): (out: Outcome)
    ensures out.added == |NewRecords(newData, IdsOf(existing))|
    ensures out.written.None? <==> out.added == 0
    ensures out.written.None? <==> forall k :: 0 <= k < |newData| ==> newData[k].id in IdsOf(existing)
    ensures out.written.Some? ==>
      && DateSorted(out.written.value)
      && multiset(out.written.value) == multiset(existing + NewRecords(newData, IdsOf(existing)))
      && |out.written.value| == |existing| + out.added
    ensures out.written.Some? ==> out.written.value == SortByDate(existing + NewRecords(newData, IdsOf(existing)))
  {
    if newData == [] then Outcome(0, None)
    else
      var novel := NewRecords(newData, IdsOf(existing));
      if novel == [] then
        Outcome(0, None)
      else
        SortSorted(existing + novel);
        SortPermutes(existing + novel);
        assert |multiset(SortByDate(existing + novel))| == |existing + novel|;
        Outcome(|novel|, Some(SortByDate(existing + novel)))
  }

  /** The ids of two sequences placed one after the other. */
  lemma IdsOfConcat(a: seq<DrawRecord>, b: seq<DrawRecord>)
    ensures IdsOf(a + b) == IdsOf(a) + IdsOf(b)
  {
    var all := a + b;
    forall id | id in IdsOf(all) ensures id in IdsOf(a) + IdsOf(b) {
      IdsOfSound(all, id);
      var k :| 0 <= k < |all| && all[k].id == id;
      if k >= |a| {
        assert b[k - |a|].id == id;
      }
    }
    forall id | id in IdsOf(a) + IdsOf(b) ensures id in IdsOf(all) {
      if id in IdsOf(a) {
        IdsOfSound(a, id);
        var k :| 0 <= k < |a| && a[k].id == id;
        assert all[k].id == id;
      } else {
        IdsOfSound(b, id);
        var k :| 0 <= k < |b| && b[k].id == id;
        assert all[|a| + k].id == id;
      }
    }
  }

  /** Filtering out the stored ids loses no id that is not stored. */
  lemma {:induction false} NewRecordsIds(newData: seq<DrawRecord>, ids: set<string>)
    ensures ids + IdsOf(NewRecords(newData, ids)) == ids + IdsOf(newData)
  {
    if newData != [] {
      var init, last := newData[..|newData| - 1], newData[|newData| - 1];
      var kept := if last.id in ids then [] else [last];
      NewRecordsIds(init, ids);
      IdsOfConcat(NewRecords(init, ids), kept);
      assert IdsOf(kept) == if last.id in ids then {} else {last.id} by {
        if last.id !in ids {
          assert kept[..0] == [];
        }
      }
    }
  }

  /** Stored records followed by the new ones hold the stored and the
      crawled ids. */
  lemma CombinedIds(existing: seq<DrawRecord>, newData: seq<DrawRecord>)
    ensures IdsOf(existing + NewRecords(newData, IdsOf(existing))) == IdsOf(existing) + IdsOf(newData)
  {
    IdsOfConcat(existing, NewRecords(newData, IdsOf(existing)));
    NewRecordsIds(newData, IdsOf(existing));
  }

  /** After a merge the store holds exactly the stored ids and the crawled
      ids. */
  lemma MergeIds(existing: seq<DrawRecord>, newData: seq<DrawRecord>)
    ensures Merge(existing, newData).written.Some? ==>
      IdsOf(Merge(existing, newData).written.value) == IdsOf(existing) + IdsOf(newData)
  {
    var out := Merge(existing, newData);
    if out.written.Some? {
      var all := existing + NewRecords(newData, IdsOf(existing));
      assert out.written.value == SortByDate(all);
      SortPermutes(all);
      SameElementsSameIds(out.written.value, all);
      CombinedIds(existing, newData);
    }
  }

  /** Running the merge again on the written store with the same crawled
      records finds nothing new and writes nothing. */
  lemma MergeIdempotent(existing: seq<DrawRecord>, newData: seq<DrawRecord>)
    ensures Merge(existing, newData).written.Some? ==>
      Merge(Merge(existing, newData).written.value, newData) == Outcome(0, None)
  {
    var out := Merge(existing, newData);
    if out.written.Some? {
      MergeIds(existing, newData);
      var written := out.written.value;
      forall k | 0 <= k < |newData| ensures newData[k].id in IdsOf(written) {
        assert newData[k].id in IdsOf(newData);
      }
      var again := Merge(written, newData);
      assert again.written.None?;
    }
  }

  /** A store with unique ids stays unique when the crawled records have
      unique ids. */
  lemma MergeUnique(existing: seq<DrawRecord>, newData: seq<DrawRecord>)
    requires UniqueIds(existing) && UniqueIds(newData)
    ensures Merge(existing, newData).written.Some? ==> UniqueIds(Merge(existing, newData).written.value)
  {
    var out := Merge(existing, newData);
    if out.written.Some? {
      var ids := IdsOf(existing);
      var novel := NewRecords(newData, ids);
      NewRecordsUnique(newData, ids);
      var all := existing + novel;
      forall i, j | 0 <= i < j < |all| ensures all[i].id != all[j].id {
        if i < |existing| <= j {
          assert all[i].id in ids;
        }
      }
      SortUnique(all);
    }
  }

  // ---- update_data ----

  lemma IdsOfPrefix(s: seq<DrawRecord>, i: nat)
    requires i < |s|
    ensures IdsOf(s[..i + 1]) == IdsOf(s[..i]) + {s[i].id}
  {
    assert s[..i + 1][..i] == s[..i];
  }

  lemma NewRecordsPrefix(s: seq<DrawRecord>, ids: set<string>, i: nat)
    requires i < |s|
    ensures NewRecords(s[..i + 1], ids) == NewRecords(s[..i], ids) + (if s[i].id in ids then [] else [s[i]])
  {
    assert s[..i + 1][..i] == s[..i];
  }

  /** The fetch a crawler built for `config` performs against `remote`. */
  function ProductFetch(config: LotteryConfig, remote: Remote): Fetch {
    (cursor: string) => FetchDraw(NewCrawler(config), remote, cursor)
  }

  datatype UpdateResult =
    | UnknownProduct
    | Done(outcome: Outcome)

  /** `update_data(product, pages)`: an unknown product is an error; otherwise
      crawl at most `pages * 10` draws from the latest one, stopping at a
      stored id, and merge. */
  function Update(products: map<string, LotteryConfig>, product: string, stored: Option<seq<DrawRecord>>,
                  remote: Remote, pages: int): UpdateResult
  {
    if product !in products then UnknownProduct
    else
      var existing := StoredRows(stored);
      var newData := Walk(ProductFetch(products[product], remote), IdsOf(existing), Budget(pages * 10), "");
      Done(Merge(existing, newData))
  }

  /** What an update adds: exactly the crawled records whose ids were not
      stored, at most `pages * 10` of them, and never a record already
      stored; its count is what is reported. */
  lemma UpdateAddsOnlyNew(products: map<string, LotteryConfig>, product: string, stored: Option<seq<DrawRecord>>,
                          remote: Remote, pages: int)
    ensures var r := Update(products, product, stored, remote, pages);
      && (r.UnknownProduct? <==> product !in products)
      && (r.Done? ==> r.outcome.added <= Budget(pages * 10))
      && (r.Done? && r.outcome.written.Some? ==>
            multiset(r.outcome.written.value) == multiset(StoredRows(stored))
              + multiset(Walk(ProductFetch(products[product], remote), IdsOf(StoredRows(stored)), Budget(pages * 10), "")))
  {
    if product in products {
      var existing := StoredRows(stored);
      var fetch := ProductFetch(products[product], remote);
      var ids := IdsOf(existing);
      var newData := Walk(fetch, ids, Budget(pages * 10), "");
      WalkBounds(fetch, ids, Budget(pages * 10), "");
      WalkFresh(fetch, ids, Budget(pages * 10), "");
      SecondFilterRedundant(newData, ids);
    }
  }

  /** Running the update again right after one that wrote the store adds
      nothing: the second crawl's first fetch returns the latest draw, which
      the first update stored, so it stops at once. */
  lemma UpdateIdempotent(products: map<string, LotteryConfig>, product: string, stored: Option<seq<DrawRecord>>,
                         remote: Remote, pages: int)
    requires product in products
    ensures var r := Update(products, product, stored, remote, pages);
      r.Done? && r.outcome.written.Some? ==>
        Update(products, product, r.outcome.written, remote, pages) == Done(Outcome(0, None))
  {
    var r := Update(products, product, stored, remote, pages);
    var existing := StoredRows(stored);
    var fetch := ProductFetch(products[product], remote);
    var budget := Budget(pages * 10);
    var newData := Walk(fetch, IdsOf(existing), budget, "");
    if r.outcome.written.Some? {
      var written := r.outcome.written.value;
      assert newData != [];
      assert budget > 0;
      var first := StepAt(fetch, IdsOf(existing), "");
      assert !first.Stop? && newData[0] == first.record;
      MergeIds(existing, newData);
      assert newData[0].id in IdsOf(written);
      assert StepAt(fetch, IdsOf(written), "").Stop?;
      assert Walk(fetch, IdsOf(written), budget, "") == [];
    }
  }

  /** `update_data`: the ids of the stored records are gathered one by one,
      the crawl runs with the bound `pages * 10`, the crawled records are
      filtered against the stored ids, and stored plus new records are
      sorted by date for writing. */
  method UpdateData(products: map<string, LotteryConfig>, product: string, stored: Option<seq<DrawRecord>>,
                    remote: Remote, pages: int) returns (r: UpdateResult)
    ensures r == Update(products, product, stored, remote, pages)
  {
    if product !in products {
      return UnknownProduct;
    }
    var config := products[product];
    var existingIds: set<string> := {};
    var existingData: seq<DrawRecord> := [];
    if stored.Some? {
      existingData := stored.value;
      for i := 0 to |existingData|
        invariant existingIds == IdsOf(existingData[..i])
      {
        IdsOfPrefix(existingData, i);
        existingIds := existingIds + {existingData[i].id};
      }
      assert existingData[..|existingData|] == existingData;
    }
    var newData, fetched := Crawl(ProductFetch(config, remote), pages * 10, Some(existingIds));
    if newData == [] {
      return Done(Outcome(0, None));
    }
    var newRecords: seq<DrawRecord> := [];
    for i := 0 to |newData|
      invariant newRecords == NewRecords(newData[..i], existingIds)
    {
      NewRecordsPrefix(newData, existingIds, i);
      if newData[i].id !in existingIds {
        newRecords := newRecords + [newData[i]];
      }
    }
    assert newData[..|newData|] == newData;
    if newRecords == [] {
      return Done(Outcome(0, None));
    }
    var allData := existingData + newRecords;
    allData := SortByDate(allData);
    return Done(Outcome(|newRecords|, Some(allData)));
  }
}
