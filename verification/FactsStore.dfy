/** The table of a school's facts and the statements that write it (adapters/facts_store.py). */
module FactsStore {
  import opened Options
  import opened FactHistory

  /** The open rows a write compares with, in table order. */
  function Current(rows: seq<Row>, school: int, tabs: seq<Tab>): (r: seq<Row>)
    ensures forall row :: row in r <==> row in rows && Concerned(row, school, tabs)
  {
    if rows == [] then []
    else
      var before := Current(rows[..|rows| - 1], school, tabs);
      var last := rows[|rows| - 1];
      if Concerned(last, school, tabs) then before + [last] else before
  }

  predicate DistinctKeys(rows: seq<Row>) {
    forall i, j :: 0 <= i < j < |rows| ==> rows[i].key != rows[j].key
  }

  /** Because of the unique index the fetched rows have one row for each key. */
  lemma {:induction false} CurrentIsDistinct(rows: seq<Row>, school: int, tabs: seq<Tab>, tabOf: string -> Tab)
    requires Valid(rows, tabOf)
    ensures DistinctKeys(Current(rows, school, tabs))
  {
    if rows != [] {
      var n := |rows| - 1;
      var before := Current(rows[..n], school, tabs);
      CurrentIsDistinct(rows[..n], school, tabs, tabOf);
      forall row | row in before && Concerned(rows[n], school, tabs) ensures row.key != rows[n].key {
        var i :| 0 <= i < n && rows[i] == row;
        assert Precedes(rows[i], rows[n]);
      }
    }
  }

  function CountMatching(current: seq<Row>, byKey: map<string, Mapped>): nat {
    if current == [] then 0
    else CountMatching(current[..|current| - 1], byKey) + (if Matches(current[|current| - 1], byKey) then 1 else 0)
  }

  function CountWithdrawn(current: seq<Row>, byKey: map<string, Mapped>): nat {
    if current == [] then 0
    else CountWithdrawn(current[..|current| - 1], byKey) + (if current[|current| - 1].key !in byKey then 1 else 0)
  }

  function MatchingRows(current: seq<Row>, byKey: map<string, Mapped>): set<Row> {
    set row | row in current && Matches(row, byKey)
  }

  function WithdrawnRows(current: seq<Row>, byKey: map<string, Mapped>): set<Row> {
    set row | row in current && row.key !in byKey
  }

  lemma DistinctInit(current: seq<Row>)
    requires DistinctKeys(current) && current != []
    ensures var init, last := current[..|current| - 1], current[|current| - 1];
            DistinctKeys(init) && last !in init && forall row :: row in current <==> row in init || row == last
  {
  }

  /** The counts are the numbers of the rows whose content is unchanged, and of those whose key is gone. */
  lemma {:induction false} CountsMean(current: seq<Row>, byKey: map<string, Mapped>)
    requires DistinctKeys(current)
    ensures CountMatching(current, byKey) == |MatchingRows(current, byKey)|
    ensures CountWithdrawn(current, byKey) == |WithdrawnRows(current, byKey)|
  {
    hide Matches, DistinctKeys;
    if current == [] {
      assert MatchingRows(current, byKey) == {} && WithdrawnRows(current, byKey) == {};
    } else {
      var init, last := current[..|current| - 1], current[|current| - 1];
      DistinctInit(current);
      CountsMean(init, byKey);
      MatchingMore(current, byKey);
      WithdrawnMore(current, byKey);
    }
  }

  lemma MatchingMore(current: seq<Row>, byKey: map<string, Mapped>)
    requires DistinctKeys(current) && current != []
    ensures var init, last := current[..|current| - 1], current[|current| - 1];
            |MatchingRows(current, byKey)| == |MatchingRows(init, byKey)| + if Matches(last, byKey) then 1 else 0
  {
    hide Matches, DistinctKeys;
    DistinctInit(current);
    var init, last := current[..|current| - 1], current[|current| - 1];
    assert last !in MatchingRows(init, byKey);
    if Matches(last, byKey) {
      assert MatchingRows(current, byKey) == MatchingRows(init, byKey) + {last};
    } else {
      assert MatchingRows(current, byKey) == MatchingRows(init, byKey);
    }
  }

  lemma WithdrawnMore(current: seq<Row>, byKey: map<string, Mapped>)
    requires DistinctKeys(current) && current != []
    ensures var init, last := current[..|current| - 1], current[|current| - 1];
            |WithdrawnRows(current, byKey)| == |WithdrawnRows(init, byKey)| + if last.key !in byKey then 1 else 0
  {
    hide DistinctKeys;
    DistinctInit(current);
    var init, last := current[..|current| - 1], current[|current| - 1];
    assert last !in WithdrawnRows(init, byKey);
    if last.key !in byKey {
      assert WithdrawnRows(current, byKey) == WithdrawnRows(init, byKey) + {last};
    } else {
      assert WithdrawnRows(current, byKey) == WithdrawnRows(init, byKey);
    }
  }

  ghost predicate Kept(current: seq<Row>, byKey: map<string, Mapped>, key: string) {
    exists row :: row in current && row.key == key && Matches(row, byKey)
  }

  ghost predicate Ended(current: seq<Row>, byKey: map<string, Mapped>, key: string) {
    exists row :: row in current && row.key == key && !Matches(row, byKey)
  }

  predicate HasKey(ms: seq<Mapped>, key: string) {
    exists i :: 0 <= i < |ms| && ms[i].key == key
  }

  predicate Distinct(ms: seq<Mapped>) {
    forall i, j :: 0 <= i < j < |ms| ==> ms[i].key != ms[j].key
  }

  predicate From(ms: seq<Mapped>, byKey: map<string, Mapped>) {
    forall m :: m in ms ==> m.key in byKey && m == byKey[m.key]
  }

  /** The comparison of `_value_changed`, branch by branch, misses no difference of content. */
  predicate ValueChanged(current: Row, value: Value): (r: bool)
    ensures r <==> current.content != value.content
  {
    var stored, given := current.content, value.content;
    if stored.kind != given.kind then true
    else if (stored.num, stored.text, stored.flag, stored.date) != (given.num, given.text, given.flag, given.date)
    then true
    else stored.inner != given.inner
  }

  /** The dictionary of rows to store, with its keys in order of first appearance. */
  method BuildNewByKey(mapped: seq<Mapped>, tabs: seq<Tab>) returns (byKey: map<string, Mapped>, keys: seq<string>)
    ensures byKey == NewByKey(mapped, tabs)
    ensures forall key :: key in keys <==> key in byKey
    ensures forall i, j :: 0 <= i < j < |keys| ==> keys[i] != keys[j]
  {
    byKey, keys := map[], [];
    for i := 0 to |mapped|
      invariant byKey == NewByKey(mapped[..i], tabs)
      invariant forall key :: key in keys <==> key in byKey
      invariant forall i, j :: 0 <= i < j < |keys| ==> keys[i] != keys[j]
    {
      var m := mapped[i];
      assert mapped[..i + 1][..i] == mapped[..i];
      if m.tab in tabs && m.value.Some? {
        if m.key !in byKey {
          keys := keys + [m.key];
        }
        byKey := byKey[m.key := m];
      }
    }
    assert mapped[..|mapped|] == mapped;
  }

  /** What the first loop has decided about the rows it has seen. */
  ghost predicate Compares(seen: seq<Row>, byKey: map<string, Mapped>, toClose: seq<string>, toInsert: seq<Mapped>,
                           toMeta: seq<Mapped>)
  {
    && (forall key :: key in toClose <==> Ended(seen, byKey, key))
    && From(toMeta, byKey) && (forall key :: HasKey(toMeta, key) <==> Kept(seen, byKey, key))
    && From(toInsert, byKey) && Distinct(toInsert)
    && (forall key :: HasKey(toInsert, key) <==> key in byKey && Ended(seen, byKey, key))
    && |toMeta| == CountMatching(seen, byKey) && |toClose| + |toMeta| == |seen|
    && |toClose| == |toInsert| + CountWithdrawn(seen, byKey)
  }

  lemma {:induction false} WithdrawOne(current: seq<Row>, byKey: map<string, Mapped>, i: nat, toClose: seq<string>,
                    toInsert: seq<Mapped>, toMeta: seq<Mapped>)
    requires i < |current| && Compares(current[..i], byKey, toClose, toInsert, toMeta) && current[i].key !in byKey
    ensures Compares(current[..i + 1], byKey, toClose + [current[i].key], toInsert, toMeta)
  {
    hide Kept, Ended, HasKey, From, Distinct, CountMatching, CountWithdrawn;
    CountOneMore(current, byKey, i);
    OneMoreRow(current, byKey, i);
    assert !Matches(current[i], byKey);
    forall key ensures key in toClose + [current[i].key] <==> key in toClose || key == current[i].key {
    }
  }

  lemma ReplaceOne(current: seq<Row>, byKey: map<string, Mapped>, i: nat, toClose: seq<string>,
                   toInsert: seq<Mapped>, toMeta: seq<Mapped>)
    requires i < |current| && Compares(current[..i], byKey, toClose, toInsert, toMeta) && DistinctKeys(current)
    requires current[i].key in byKey && byKey[current[i].key].key == current[i].key && !Matches(current[i], byKey)
    ensures Compares(current[..i + 1], byKey, toClose + [current[i].key], toInsert + [byKey[current[i].key]], toMeta)
  {
    hide Kept, Ended, HasKey, From, Distinct, CountMatching, CountWithdrawn, Matches, DistinctKeys;
    CountOneMore(current, byKey, i);
    OneMoreRow(current, byKey, i);
    NotYetEnded(current, byKey, i);
    OneMoreKey(toInsert, byKey, byKey[current[i].key]);
  }

  lemma KeepOne(current: seq<Row>, byKey: map<string, Mapped>, i: nat, toClose: seq<string>,
                toInsert: seq<Mapped>, toMeta: seq<Mapped>)
    requires i < |current| && Compares(current[..i], byKey, toClose, toInsert, toMeta)
    requires current[i].key in byKey && byKey[current[i].key].key == current[i].key && Matches(current[i], byKey)
    ensures Compares(current[..i + 1], byKey, toClose, toInsert, toMeta + [byKey[current[i].key]])
  {
    hide Kept, Ended, HasKey, From, Distinct, CountMatching, CountWithdrawn, Matches;
    CountOneMore(current, byKey, i);
    OneMoreRow(current, byKey, i);
    OneMoreKey(toMeta, byKey, byKey[current[i].key]);
  }

  lemma NothingCompared(byKey: map<string, Mapped>)
    ensures Compares([], byKey, [], [], [])
  {
  }

  /** The first loop of the comparison: close what is withdrawn or changed, keep what is not. */
  method CompareCurrent(current: seq<Row>, byKey: map<string, Mapped>)
    returns (toClose: seq<string>, toInsert: seq<Mapped>, toMeta: seq<Mapped>)
    requires forall key :: key in byKey ==> byKey[key].key == key && byKey[key].value.Some?
    requires DistinctKeys(current)
    ensures Compares(current, byKey, toClose, toInsert, toMeta)
  {
    hide Compares, DistinctKeys;
    toClose, toInsert, toMeta := [], [], [];
    NothingCompared(byKey);
    for i := 0 to |current|
      invariant Compares(current[..i], byKey, toClose, toInsert, toMeta)
    {
      var row := current[i];
      if row.key !in byKey {
        WithdrawOne(current, byKey, i, toClose, toInsert, toMeta);
        toClose := toClose + [row.key];
      } else {
        var m := byKey[row.key];
        if ValueChanged(row, m.value.value) {
          ReplaceOne(current, byKey, i, toClose, toInsert, toMeta);
          toClose := toClose + [row.key];
          toInsert := toInsert + [m];
        } else {
          KeepOne(current, byKey, i, toClose, toInsert, toMeta);
          toMeta := toMeta + [m];
        }
      }
    }
    assert current[..|current|] == current;
  }

  lemma CountOneMore(current: seq<Row>, byKey: map<string, Mapped>, i: nat)
    requires i < |current|
    ensures CountMatching(current[..i + 1], byKey) ==
            CountMatching(current[..i], byKey) + if Matches(current[i], byKey) then 1 else 0
    ensures CountWithdrawn(current[..i + 1], byKey) ==
            CountWithdrawn(current[..i], byKey) + if current[i].key !in byKey then 1 else 0
  {
    assert current[..i + 1][..i] == current[..i];
  }

  lemma OneMoreRow(current: seq<Row>, byKey: map<string, Mapped>, i: nat)
    requires i < |current|
    ensures forall key :: Kept(current[..i + 1], byKey, key) <==>
              Kept(current[..i], byKey, key) || (current[i].key == key && Matches(current[i], byKey))
    ensures forall key :: Ended(current[..i + 1], byKey, key) <==>
              Ended(current[..i], byKey, key) || (current[i].key == key && !Matches(current[i], byKey))
  {
    hide Matches;
    var before, now := current[..i], current[..i + 1];
    assert now == before + [current[i]];
    forall key
      ensures Kept(now, byKey, key) <==> Kept(before, byKey, key) || (current[i].key == key && Matches(current[i], byKey))
      ensures Ended(now, byKey, key) <==> Ended(before, byKey, key) || (current[i].key == key && !Matches(current[i], byKey))
    {
      assert forall row :: row in before ==> row in now;
      assert current[i] in now;
    }
  }

  lemma NotYetEnded(current: seq<Row>, byKey: map<string, Mapped>, i: nat)
    requires i < |current| && DistinctKeys(current)
    ensures !Ended(current[..i], byKey, current[i].key)
  {
  }

  lemma OneMoreKey(ms: seq<Mapped>, byKey: map<string, Mapped>, m: Mapped)
    requires From(ms, byKey) && m.key in byKey && m == byKey[m.key]
    ensures From(ms + [m], byKey)
    ensures forall key :: HasKey(ms + [m], key) <==> HasKey(ms, key) || key == m.key
    ensures Distinct(ms) && !HasKey(ms, m.key) ==> Distinct(ms + [m])
  {
    forall key ensures HasKey(ms + [m], key) <==> HasKey(ms, key) || key == m.key {
      assert (ms + [m])[|ms|] == m;
      assert forall i :: 0 <= i < |ms| ==> (ms + [m])[i] == ms[i];
    }
  }

  /** The second loop: insert the keys that no current row has. */
  method AddUnseen(keys: seq<string>, byKey: map<string, Mapped>, current: seq<Row>, replaced: seq<Mapped>,
                   ghost toClose: seq<string>, ghost toMeta: seq<Mapped>)
    returns (toInsert: seq<Mapped>)
    requires forall key :: key in keys <==> key in byKey
    requires forall i, j :: 0 <= i < j < |keys| ==> keys[i] != keys[j]
    requires forall key :: key in byKey ==> byKey[key].key == key && byKey[key].value.Some?
    requires Compares(current, byKey, toClose, replaced, toMeta)
    ensures From(toInsert, byKey) && Distinct(toInsert)
    ensures forall key :: HasKey(toInsert, key) <==>
              key in byKey && (Ended(current, byKey, key) || !Kept(current, byKey, key))
  {
    hide HasKey, From, Distinct, Kept, Ended, Matches;
    toInsert := replaced;
    var currentKeys := set row | row in current :: row.key;
    assert forall k: string :: k !in keys[..0];
    for i := 0 to |keys|
      invariant From(toInsert, byKey) && Distinct(toInsert)
      invariant forall key :: HasKey(toInsert, key) <==>
                  key in byKey && (Ended(current, byKey, key) || (key in keys[..i] && key !in currentKeys))
    {
      var key := keys[i];
      assert forall k :: k in keys[..i + 1] <==> k in keys[..i] || k == key;
      if key !in currentKeys {
        SeenIfEnded(current, byKey, key);
        OneMoreKey(toInsert, byKey, byKey[key]);
        toInsert := toInsert + [byKey[key]];
      }
    }
    assert keys[..|keys|] == keys;
    forall key ensures key in currentKeys <==> Ended(current, byKey, key) || Kept(current, byKey, key) {
      SeenIfEnded(current, byKey, key);
    }
  }

  lemma SeenIfEnded(current: seq<Row>, byKey: map<string, Mapped>, key: string)
    ensures key in (set row | row in current :: row.key) <==> Ended(current, byKey, key) || Kept(current, byKey, key)
  {
    hide Matches;
    if key in (set row | row in current :: row.key) {
      var row :| row in current && row.key == key;
      assert Matches(row, byKey) || !Matches(row, byKey);
    }
  }

  // -- the statements, on one row

  function CloseRow(row: Row, school: int, tabs: seq<Tab>, keys: seq<string>, now: int): Row {
    if Concerned(row, school, tabs) && row.key in keys then row.(validTo := Some(now)) else row
  }

  function RefreshRow(row: Row, school: int, key: string, meta: Meta): Row {
    if row.school == school && row.key == key && row.validTo.None? then row.(meta := meta) else row
  }

  /** A row after all refreshes. */
  function Refreshed(row: Row, w: Write, ms: seq<Mapped>): Row
    requires Sourced(w) && From(ms, New(w))
  {
    if row.school == w.school && row.validTo.None? && HasKey(ms, row.key)
    then (assert row.key in New(w); row.(meta := MetaOf(New(w)[row.key], w)))
    else row
  }

  /** Closing in time keeps the invariant. */
  lemma ClosingKeepsValid(rows: seq<Row>, closed: seq<Row>, school: int, now: int, tabOf: string -> Tab)
    requires Valid(rows, tabOf) && Past(rows, school, now) && |closed| == |rows|
    requires forall i :: 0 <= i < |rows| ==>
      closed[i] == rows[i] || (rows[i].school == school && rows[i].validTo.None? && closed[i] == rows[i].(validTo := Some(now)))
    ensures Valid(closed, tabOf)
  {
    forall i, j | 0 <= i < j < |closed| ensures Precedes(closed[i], closed[j]) {
      assert Precedes(rows[i], rows[j]);
    }
  }

  lemma RefreshingKeepsValid(rows: seq<Row>, after: seq<Row>, tabOf: string -> Tab)
    requires Valid(rows, tabOf) && |after| == |rows|
    requires forall i :: 0 <= i < |rows| ==> after[i] == rows[i].(meta := after[i].meta)
    ensures Valid(after, tabOf)
  {
    forall i, j | 0 <= i < j < |after| ensures Precedes(after[i], after[j]) {
      assert Precedes(rows[i], rows[j]);
    }
  }

  /** The row can be inserted: no row of its fact is open, and all have ended by the time it begins. */
  ghost predicate Insertable(rows: seq<Row>, row: Row, tabOf: string -> Tab) {
    row.tab == tabOf(row.key) && row.validTo.None? && forall i :: 0 <= i < |rows| ==> Precedes(rows[i], row)
  }

  // -- the comparison decides the write

  /** What the two loops of the comparison deliver. */
  ghost predicate Compared(current: seq<Row>, byKey: map<string, Mapped>, toClose: seq<string>,
                           toInsert: seq<Mapped>, toMeta: seq<Mapped>)
  {
    && (forall key :: key in toClose <==> Ended(current, byKey, key))
    && From(toMeta, byKey) && (forall key :: HasKey(toMeta, key) <==> Kept(current, byKey, key))
    && From(toInsert, byKey) && Distinct(toInsert)
    && (forall key :: HasKey(toInsert, key) <==> key in byKey && (Ended(current, byKey, key) || !Kept(current, byKey, key)))
  }

  /** For a key of a current row, the row itself decides whether the key ends or is kept. */
  lemma RowDecides(rows: seq<Row>, w: Write, tabOf: string -> Tab, i: nat)
    requires Valid(rows, tabOf) && i < |rows| && Concerned(rows[i], w.school, w.tabs)
    ensures var current := Current(rows, w.school, w.tabs);
            && (Ended(current, New(w), rows[i].key) <==> !Matches(rows[i], New(w)))
            && (Kept(current, New(w), rows[i].key) <==> Matches(rows[i], New(w)))
  {
    hide Matches, NewByKey;
    var current := Current(rows, w.school, w.tabs);
    forall row | row in current && row.key == rows[i].key ensures row == rows[i] {
      var j :| 0 <= j < |rows| && rows[j] == row;
      NeverOverlap(rows, tabOf, i, j, 0);
    }
    assert rows[i] in current;
  }

  lemma KeptIsStays(rows: seq<Row>, w: Write, key: string)
    ensures Kept(Current(rows, w.school, w.tabs), New(w), key) <==> Stays(rows, w, key)
  {
    hide Matches, NewByKey;
    var current := Current(rows, w.school, w.tabs);
    if Kept(current, New(w), key) {
      var row :| row in current && row.key == key && Matches(row, New(w));
      var i :| 0 <= i < |rows| && rows[i] == row;
    }
    if Stays(rows, w, key) {
      var i :| 0 <= i < |rows| && Concerned(rows[i], w.school, w.tabs) && rows[i].key == key && Matches(rows[i], New(w));
      assert rows[i] in current;
    }
  }

  /** An old row, closed or refreshed by the lists, becomes what the write makes of it. */
  lemma ListsDecideRow(rows: seq<Row>, w: Write, tabOf: string -> Tab, toClose: seq<string>, toInsert: seq<Mapped>,
                       toMeta: seq<Mapped>, i: nat)
    requires Valid(rows, tabOf) && i < |rows| && Sourced(w) && OneTabPerKey(w, tabOf)
    requires Compared(Current(rows, w.school, w.tabs), New(w), toClose, toInsert, toMeta)
    ensures Refreshed(CloseRow(rows[i], w.school, w.tabs, toClose, w.time), w, toMeta) == After(rows[i], w)
  {
    hide NewByKey, Kept, Ended, HasKey, Distinct, Current;
    if Concerned(rows[i], w.school, w.tabs) {
      RowDecides(rows, w, tabOf, i);
    } else if HasKey(toMeta, rows[i].key) {
      KeyOfList(toMeta, New(w), rows[i].key);
      NewOnChangedTabs(w, tabOf, rows[i].key);
    }
  }

  lemma KeyOfList(ms: seq<Mapped>, byKey: map<string, Mapped>, key: string)
    requires From(ms, byKey) && HasKey(ms, key)
    ensures key in byKey
  {
  }

  /** A row inserted by the list is not touched by the refreshes and is one that the write inserts. */
  lemma ListsDecideInsert(rows: seq<Row>, w: Write, tabOf: string -> Tab, toClose: seq<string>, toInsert: seq<Mapped>,
                          toMeta: seq<Mapped>, m: Mapped)
    requires Valid(rows, tabOf) && Sourced(w) && OneTabPerKey(w, tabOf)
    requires Compared(Current(rows, w.school, w.tabs), New(w), toClose, toInsert, toMeta)
    requires HasKey(toInsert, m.key) && m.key in New(w) && m == New(w)[m.key]
    ensures Refreshed(Fresh(m, w), w, toMeta) == Fresh(m, w)
    ensures IsInsert(Fresh(m, w), rows, w)
  {
    hide NewByKey, HasKey, Distinct, Stays, Matches;
    var current := Current(rows, w.school, w.tabs);
    KeptIsStays(rows, w, m.key);
    if Kept(current, New(w), m.key) {
      var row :| row in current && row.key == m.key && Matches(row, New(w));
      var i :| 0 <= i < |rows| && rows[i] == row;
      RowDecides(rows, w, tabOf, i);
    }
  }

  // -- what the counts count

  /** The rows a write closes. */
  function CountClosed(rows: seq<Row>, after: seq<Row>): nat
    requires |rows| <= |after|
  {
    if rows == [] then 0
    else
      var n := |rows| - 1;
      CountClosed(rows[..n], after[..n]) + if rows[n].validTo.None? && after[n].validTo.Some? then 1 else 0
  }

  /** What is open before a write it closes or keeps. */
  lemma {:induction false} ClosedAndKept(rows: seq<Row>, w: Write, after: seq<Row>)
    requires Sourced(w) && |rows| <= |after| && forall i :: 0 <= i < |rows| ==> after[i] == After(rows[i], w)
    ensures CountClosed(rows, after) + CountMatching(Current(rows, w.school, w.tabs), New(w))
         == |Current(rows, w.school, w.tabs)|
    ensures |Current(after[..|rows|], w.school, w.tabs)| == CountMatching(Current(rows, w.school, w.tabs), New(w))
  {
    hide NewByKey, Matches;
    if rows != [] {
      var n := |rows| - 1;
      ClosedAndKept(rows[..n], w, after[..n]);
      assert after[n] == After(rows[n], w);
      assert after[..|rows|][..n] == after[..n] && after[..n][..n] == after[..n];
      var before := Current(rows[..n], w.school, w.tabs);
      assert (before + [rows[n]])[..|before|] == before;
    }
  }

  /** All rows that a write inserts are open on its tabs. */
  lemma {:induction false} InsertedAreOpen(rows: seq<Row>, w: Write, after: seq<Row>, n: nat)
    requires Sourced(w) && IsWrite(rows, w, after) && |rows| <= n <= |after|
    ensures |Current(after[..n], w.school, w.tabs)| == |Current(after[..|rows|], w.school, w.tabs)| + n - |rows|
  {
    hide IsWrite;
    if n > |rows| {
      InsertedAreOpen(rows, w, after, n - 1);
      assert after[..n][..n - 1] == after[..n - 1];
      InsertIsNew(rows, w, after, n - 1);
    }
  }

  /** Open rows of the changed tabs after a write: those before it, less the closed ones, plus the inserted ones. */
  lemma CountsBalance(rows: seq<Row>, w: Write, after: seq<Row>)
    requires Sourced(w) && IsWrite(rows, w, after)
    ensures |Current(after, w.school, w.tabs)|
         == |Current(rows, w.school, w.tabs)| + (|after| - |rows|) - CountClosed(rows, after)
  {
    hide CountMatching, Current;
    ClosedAndKept(rows, w, after);
    InsertedAreOpen(rows, w, after, |after|);
    assert after[..|after|] == after;
  }

  lemma NewIsNewByKey(w: Write)
    ensures New(w) == NewByKey(w.mapped, w.tabs)
    ensures forall key :: key in New(w) ==> New(w)[key].key == key && New(w)[key].value.Some? && New(w)[key].tab in w.tabs
  {
  }

  lemma {:induction false} NothingOnNoTabs(rows: seq<Row>, school: int)
    ensures Current(rows, school, []) == []
  {
    if rows != [] {
      NothingOnNoTabs(rows[..|rows| - 1], school);
    }
  }

  lemma EmptyWrite(rows: seq<Row>, w: Write)
    requires Sourced(w) && w.tabs == []
    ensures IsWrite(rows, w, rows)
    ensures Current(rows, w.school, w.tabs) == []
    ensures CountWithdrawn([], New(w)) == 0 && CountMatching([], New(w)) == 0
  {
    hide CountMatching, CountWithdrawn;
    NewIsNewByKey(w);
    NothingOnNoTabs(rows, w.school);
    NoCounts(New(w));
  }

  lemma NoCounts(byKey: map<string, Mapped>)
    ensures CountWithdrawn([], byKey) == 0 && CountMatching([], byKey) == 0
  {
  }

  lemma AllCompared(current: seq<Row>, byKey: map<string, Mapped>, toClose: seq<string>, replaced: seq<Mapped>,
                    toInsert: seq<Mapped>, toMeta: seq<Mapped>)
    requires Compares(current, byKey, toClose, replaced, toMeta)
    requires From(toInsert, byKey) && Distinct(toInsert)
    requires forall key :: HasKey(toInsert, key) <==>
               key in byKey && (Ended(current, byKey, key) || !Kept(current, byKey, key))
    ensures Compared(current, byKey, toClose, toInsert, toMeta)
    ensures From(toMeta, byKey)
    ensures |toMeta| == CountMatching(current, byKey) && |toClose| - |replaced| == CountWithdrawn(current, byKey)
  {
    hide Ended, From, HasKey, Kept, Distinct, CountMatching, CountWithdrawn;
  }

  lemma NothingToClose(rows: seq<Row>, school: int, tabs: seq<Tab>, now: int)
    ensures forall i :: 0 <= i < |rows| ==> rows[i] == CloseRow(rows[i], school, tabs, [], now)
  {
  }

  lemma NothingRefreshed(rows: seq<Row>, ms: seq<Mapped>, w: Write)
    requires Sourced(w) && From(ms, New(w))
    ensures From(ms[..0], New(w)) && forall i :: 0 <= i < |rows| ==> rows[i] == Refreshed(rows[i], w, ms[..0])
  {
    hide New;
  }

  lemma OneMoreRefresh(ms: seq<Mapped>, w: Write, i: nat)
    requires i < |ms| && Sourced(w) && From(ms, New(w)) && From(ms[..i], New(w))
    ensures From(ms[..i + 1], New(w)) && ms[i].key in New(w) && ms[i] == New(w)[ms[i].key]
    ensures ms[i].value.Some? && ms[i].tab in w.snapshotIds
    ensures forall row: Row ::
      Refreshed(row, w, ms[..i + 1]) == RefreshRow(Refreshed(row, w, ms[..i]), w.school, ms[i].key, MetaOf(ms[i], w))
  {
    hide NewByKey, HasKey;
    NewIsNewByKey(w);
    var m := ms[i];
    assert m in ms;
    assert ms[..i + 1] == ms[..i] + [m];
    OneMoreKey(ms[..i], New(w), m);
  }

  /** Inserts for other keys do not stand in the way of an insert. */
  lemma {:induction false} StillInsertable(rows: seq<Row>, longer: seq<Row>, ms: seq<Mapped>, w: Write, tabOf: string -> Tab, i: nat)
    requires Sourced(w) && From(ms, New(w)) && Distinct(ms) && i < |ms| && |longer| == |rows| + i && rows <= longer
    requires forall m :: m in ms ==> m.tab in w.tabs && m.value.Some?
    requires Insertable(rows, Fresh(ms[i], w), tabOf)
    requires forall j :: 0 <= j < i ==> longer[|rows| + j] == Fresh(ms[j], w)
    ensures Insertable(longer, Fresh(ms[i], w), tabOf)
  {
    hide New, From;
    forall k | 0 <= k < |longer| ensures Precedes(longer[k], Fresh(ms[i], w)) {
      if k < |rows| {
        assert longer[k] == rows[k];
      } else {
        var j := k - |rows|;
        assert longer[|rows| + j] == Fresh(ms[j], w);
      }
    }
  }

  /** Once the closing is done every row of the list can be inserted. */
  lemma ClosedIsInsertable(rows: seq<Row>, closed: seq<Row>, w: Write, tabOf: string -> Tab, toClose: seq<string>,
                           toInsert: seq<Mapped>, toMeta: seq<Mapped>)
    requires Valid(rows, tabOf) && Past(rows, w.school, w.time) && Sourced(w) && OneTabPerKey(w, tabOf)
    requires Compared(Current(rows, w.school, w.tabs), New(w), toClose, toInsert, toMeta)
    requires |closed| == |rows|
    requires forall i :: 0 <= i < |rows| ==> closed[i] == CloseRow(rows[i], w.school, w.tabs, toClose, w.time)
    ensures forall m :: m in toInsert ==> m.tab in w.tabs && m.value.Some? && Insertable(closed, Fresh(m, w), tabOf)
  {
    hide Compared, NewByKey, Insertable;
    NewIsNewByKey(w);
    forall m | m in toInsert ensures m.tab in w.tabs && m.value.Some? && Insertable(closed, Fresh(m, w), tabOf) {
      InsertIsOfNew(rows, w, toClose, toInsert, toMeta, m);
      OneIsInsertable(rows, closed, w, tabOf, toClose, toInsert, toMeta, m);
    }
  }

  lemma InsertIsOfNew(rows: seq<Row>, w: Write, toClose: seq<string>, toInsert: seq<Mapped>, toMeta: seq<Mapped>,
                      m: Mapped)
    requires Compared(Current(rows, w.school, w.tabs), New(w), toClose, toInsert, toMeta) && m in toInsert
    ensures m.key in New(w) && m == New(w)[m.key] && HasKey(toInsert, m.key)
    ensures var current := Current(rows, w.school, w.tabs);
            Ended(current, New(w), m.key) || !Kept(current, New(w), m.key)
  {
    hide New, Ended, Kept, Distinct, Current;
    assert HasKey(toInsert, m.key) by {
      var i :| 0 <= i < |toInsert| && toInsert[i] == m;
    }
  }

  lemma {:induction false} OneIsInsertable(rows: seq<Row>, closed: seq<Row>, w: Write, tabOf: string -> Tab, toClose: seq<string>,
                        toInsert: seq<Mapped>, toMeta: seq<Mapped>, m: Mapped)
    requires Valid(rows, tabOf) && Past(rows, w.school, w.time) && Sourced(w) && OneTabPerKey(w, tabOf)
    requires Compared(Current(rows, w.school, w.tabs), New(w), toClose, toInsert, toMeta)
    requires |closed| == |rows|
    requires forall i :: 0 <= i < |rows| ==> closed[i] == CloseRow(rows[i], w.school, w.tabs, toClose, w.time)
    requires m in toInsert && m.key in New(w) && m == New(w)[m.key] && m.tab in w.tabs && m.value.Some?
    ensures Insertable(closed, Fresh(m, w), tabOf)
  {
    hide New, Matches, Kept, Ended, Current, HasKey, Distinct, From;
    NewOnChangedTabs(w, tabOf, m.key);
    InsertIsOfNew(rows, w, toClose, toInsert, toMeta, m);
    forall i | 0 <= i < |closed| ensures Precedes(closed[i], Fresh(m, w)) {
      assert closed[i] == CloseRow(rows[i], w.school, w.tabs, toClose, w.time);
      if SameFact(closed[i], Fresh(m, w)) && rows[i].validTo.None? {
        assert rows[i].tab == tabOf(rows[i].key);
        RowDecides(rows, w, tabOf, i);
      }
    }
  }

  /** The three lists, worked off in order, make the write. */
  lemma ListsMakeWrite(rows: seq<Row>, closed: seq<Row>, longer: seq<Row>, after: seq<Row>, w: Write,
                       tabOf: string -> Tab, toClose: seq<string>, toInsert: seq<Mapped>, toMeta: seq<Mapped>)
    requires Valid(rows, tabOf) && Sourced(w) && OneTabPerKey(w, tabOf)
    requires Compared(Current(rows, w.school, w.tabs), New(w), toClose, toInsert, toMeta)
    requires forall m :: m in toInsert ==> m.tab in w.tabs && m.value.Some?
    requires |closed| == |rows|
    requires forall i :: 0 <= i < |rows| ==> closed[i] == CloseRow(rows[i], w.school, w.tabs, toClose, w.time)
    requires |longer| == |closed| + |toInsert| && closed <= longer
    requires forall i :: 0 <= i < |toInsert| ==> longer[|closed| + i] == Fresh(toInsert[i], w)
    requires From(toMeta, New(w)) && |after| == |longer|
    requires forall i :: 0 <= i < |after| ==> after[i] == Refreshed(longer[i], w, toMeta)
    ensures IsWrite(rows, w, after)
  {
    hide *;
    forall i | 0 <= i < |rows| ensures after[i] == After(rows[i], w) {
      assert longer[i] == closed[i];
      ListsDecideRow(rows, w, tabOf, toClose, toInsert, toMeta, i);
    }
    forall i | |rows| <= i < |after| ensures IsInsert(after[i], rows, w) && after[i].key == toInsert[i - |rows|].key {
      var m := toInsert[i - |rows|];
      assert longer[|closed| + (i - |rows|)] == Fresh(m, w);
      InsertIsOfNew(rows, w, toClose, toInsert, toMeta, m);
      ListsDecideInsert(rows, w, tabOf, toClose, toInsert, toMeta, m);
      KeyOfFresh(m, w);
    }
    forall key | key in New(w) && !Stays(rows, w, key) ensures HasInsert(after, |rows|, key) {
      KeptIsStays(rows, w, key);
      var i := UnkeptIsListed(rows, w, toClose, toInsert, toMeta, key);
      assert after[|rows| + i].key == key;
      InsertIsThere(after, |rows|, key, |rows| + i);
    }
    DistinctInserts(rows, w, after, toClose, toInsert, toMeta);
    AllOfWrite(rows, w, after);
  }

  lemma KeyOfFresh(m: Mapped, w: Write)
    requires Sourced(w) && m.tab in w.tabs && m.value.Some?
    ensures Fresh(m, w).key == m.key
  {
  }

  lemma InsertIsThere(after: seq<Row>, from: nat, key: string, i: nat)
    requires from <= i < |after| && after[i].key == key
    ensures HasInsert(after, from, key)
  {
  }

  lemma UnkeptIsListed(rows: seq<Row>, w: Write, toClose: seq<string>, toInsert: seq<Mapped>, toMeta: seq<Mapped>,
                       key: string) returns (i: nat)
    requires Compared(Current(rows, w.school, w.tabs), New(w), toClose, toInsert, toMeta)
    requires key in New(w) && !Kept(Current(rows, w.school, w.tabs), New(w), key)
    ensures i < |toInsert| && toInsert[i].key == key
  {
    hide New, Ended, Kept, Distinct, From, Current;
    assert HasKey(toInsert, key);
    i :| 0 <= i < |toInsert| && toInsert[i].key == key;
  }

  lemma DistinctInserts(rows: seq<Row>, w: Write, after: seq<Row>, toClose: seq<string>, toInsert: seq<Mapped>,
                        toMeta: seq<Mapped>)
    requires Compared(Current(rows, w.school, w.tabs), New(w), toClose, toInsert, toMeta)
    requires |after| == |rows| + |toInsert|
    requires forall i :: |rows| <= i < |after| ==> after[i].key == toInsert[i - |rows|].key
    ensures forall i, j :: |rows| <= i < j < |after| ==> after[i].key != after[j].key
  {
    hide New, Ended, Kept, From, HasKey, Current;
    forall i, j | |rows| <= i < j < |after| ensures after[i].key != after[j].key {
      assert toInsert[i - |rows|].key != toInsert[j - |rows|].key;
    }
  }

  lemma AllOfWrite(rows: seq<Row>, w: Write, after: seq<Row>)
    requires Sourced(w) && |rows| <= |after|
    requires forall i :: 0 <= i < |rows| ==> after[i] == After(rows[i], w)
    requires forall i :: |rows| <= i < |after| ==> IsInsert(after[i], rows, w)
    requires forall i, j :: |rows| <= i < j < |after| ==> after[i].key != after[j].key
    requires forall key :: key in New(w) && !Stays(rows, w, key) ==> HasInsert(after, |rows|, key)
    ensures IsWrite(rows, w, after)
  {
    hide After, IsInsert, New, Stays, HasInsert;
  }

  /** Inserted and refreshed rows together are all that is open on the tabs. */
  lemma OpenIsInsertedOrKept(rows: seq<Row>, w: Write, after: seq<Row>)
    requires Sourced(w) && IsWrite(rows, w, after)
    ensures |Current(after, w.school, w.tabs)|
         == |after| - |rows| + CountMatching(Current(rows, w.school, w.tabs), New(w))
  {
    hide CountMatching, Current;
    ClosedAndKept(rows, w, after);
    InsertedAreOpen(rows, w, after, |after|);
    assert after[..|after|] == after;
  }

  // -- the table

  datatype FactsWriteResult = FactsWriteResult(inserted: nat, closedWithdrawn: nat, updatedMetadata: nat)

  class SchoolFacts {
    var rows: seq<Row>
    ghost const tabOf: string -> Tab

    constructor (ghost tabOf: string -> Tab)
      ensures rows == [] && this.tabOf == tabOf && Valid(rows, tabOf)
    {
      rows := [];
      this.tabOf := tabOf;
    }

    /** Closes the school's open rows of the keys on the tabs. */
    method Close(school: int, tabs: seq<Tab>, keys: seq<string>, now: int)
      requires Valid(rows, tabOf) && Past(rows, school, now)
      modifies this
      ensures Valid(rows, tabOf) && |rows| == |old(rows)|
      ensures forall i :: 0 <= i < |rows| ==> rows[i] == CloseRow(old(rows)[i], school, tabs, keys, now)
    {
      hide Valid;
      for i := 0 to |rows|
        invariant |rows| == |old(rows)|
        invariant forall j :: 0 <= j < i ==> rows[j] == CloseRow(old(rows)[j], school, tabs, keys, now)
        invariant forall j :: i <= j < |rows| ==> rows[j] == old(rows)[j]
      {
        if Concerned(rows[i], school, tabs) && rows[i].key in keys {
          rows := rows[i := rows[i].(validTo := Some(now))];
        }
      }
      ClosingKeepsValid(old(rows), rows, school, now, tabOf);
    }

    /** Inserts one row, which the unique index admits. */
    method Insert(row: Row)
      requires Valid(rows, tabOf) && Insertable(rows, row, tabOf)
      modifies this
      ensures rows == old(rows) + [row] && Valid(rows, tabOf)
    {
      rows := rows + [row];
    }

    /** Overwrites the metadata of the open row of a key. */
    method Refresh(school: int, key: string, meta: Meta)
      requires Valid(rows, tabOf)
      modifies this
      ensures Valid(rows, tabOf) && |rows| == |old(rows)|
      ensures forall i :: 0 <= i < |rows| ==> rows[i] == RefreshRow(old(rows)[i], school, key, meta)
    {
      hide Valid;
      for i := 0 to |rows|
        invariant |rows| == |old(rows)|
        invariant forall j :: 0 <= j < i ==> rows[j] == RefreshRow(old(rows)[j], school, key, meta)
        invariant forall j :: i <= j < |rows| ==> rows[j] == old(rows)[j]
      {
        if rows[i].school == school && rows[i].key == key && rows[i].validTo.None? {
          rows := rows[i := rows[i].(meta := meta)];
        }
      }
      RefreshingKeepsValid(old(rows), rows, tabOf);
    }

    method FetchCurrent(school: int, tabs: seq<Tab>) returns (current: seq<Row>)
      ensures current == Current(rows, school, tabs)
    {
      current := [];
      for i := 0 to |rows|
        invariant current == Current(rows[..i], school, tabs)
      {
        assert rows[..i + 1][..i] == rows[..i];
        if Concerned(rows[i], school, tabs) {
          current := current + [rows[i]];
        }
      }
      assert rows[..|rows|] == rows;
    }

    /** Every insert of the list is admitted: its key was never open, or has just been closed. */
    method InsertAll(ms: seq<Mapped>, w: Write)
      requires Valid(rows, tabOf) && Sourced(w) && From(ms, New(w)) && Distinct(ms)
      requires forall m :: m in ms ==> m.tab in w.tabs && m.value.Some? && Insertable(rows, Fresh(m, w), tabOf)
      modifies this
      ensures Valid(rows, tabOf) && |rows| == |old(rows)| + |ms| && old(rows) <= rows
      ensures forall i :: 0 <= i < |ms| ==> rows[|old(rows)| + i] == Fresh(ms[i], w)
    {
      hide Valid, New, Insertable, Fresh, From;
      for i := 0 to |ms|
        invariant Valid(rows, tabOf) && |rows| == |old(rows)| + i && old(rows) <= rows
        invariant forall j :: 0 <= j < i ==> rows[|old(rows)| + j] == Fresh(ms[j], w)
      {
        StillInsertable(old(rows), rows, ms, w, tabOf, i);
        Insert(Fresh(ms[i], w));
      }
    }

    method RefreshAll(ms: seq<Mapped>, w: Write)
      requires Valid(rows, tabOf) && Sourced(w) && From(ms, New(w))
      modifies this
      ensures Valid(rows, tabOf) && |rows| == |old(rows)|
      ensures forall i :: 0 <= i < |rows| ==> rows[i] == Refreshed(old(rows)[i], w, ms)
    {
      hide Valid, NewByKey, HasKey;
      NothingRefreshed(rows, ms, w);
      for i := 0 to |ms|
        invariant Valid(rows, tabOf) && |rows| == |old(rows)| && From(ms[..i], New(w))
        invariant forall j :: 0 <= j < |rows| ==> rows[j] == Refreshed(old(rows)[j], w, ms[..i])
      {
        var m := ms[i];
        OneMoreRefresh(ms, w, i);
        Refresh(w.school, m.key, MetaOf(m, w));
      }
      assert ms[..|ms|] == ms;
    }

    /**
     * Close, then insert, then refresh; the unique index holds after every statement. The counts are of the rows
     * inserted, of the keys withdrawn without a successor, and of the rows kept.
     */
    method WriteSchoolFacts(w: Write) returns (result: FactsWriteResult)
      requires Valid(rows, tabOf) && Past(rows, w.school, w.time) && Sourced(w) && OneTabPerKey(w, tabOf)
      modifies this
      ensures Valid(rows, tabOf) && IsWrite(old(rows), w, rows)
      ensures result.inserted == |rows| - |old(rows)|
      ensures result.closedWithdrawn == CountWithdrawn(Current(old(rows), w.school, w.tabs), New(w))
      ensures result.updatedMetadata == CountMatching(Current(old(rows), w.school, w.tabs), New(w))
      ensures |Current(rows, w.school, w.tabs)| == result.inserted + result.updatedMetadata
    {
      hide *;
      if w.tabs == [] {
        EmptyWrite(rows, w);
        return FactsWriteResult(0, 0, 0);
      }
      var byKey, keys := BuildNewByKey(w.mapped, w.tabs);
      NewIsNewByKey(w);
      var current := FetchCurrent(w.school, w.tabs);
      CurrentIsDistinct(rows, w.school, w.tabs, tabOf);
      var toClose, replaced, toMeta := CompareCurrent(current, byKey);
      var toInsert := AddUnseen(keys, byKey, current, replaced, toClose, toMeta);
      AllCompared(current, byKey, toClose, replaced, toInsert, toMeta);
      ghost var rows0 := rows;
      if toClose != [] {
        Close(w.school, w.tabs, toClose, w.time);
      } else {
        NothingToClose(rows, w.school, w.tabs, w.time);
      }
      ghost var rows1 := rows;
      ClosedIsInsertable(rows0, rows1, w, tabOf, toClose, toInsert, toMeta);
      InsertAll(toInsert, w);
      ghost var rows2 := rows;
      RefreshAll(toMeta, w);
      ListsMakeWrite(rows0, rows1, rows2, rows, w, tabOf, toClose, toInsert, toMeta);
      OpenIsInsertedOrKept(rows0, w, rows);
      return FactsWriteResult(|toInsert|, |toClose| - |replaced|, |toMeta|);
    }
  }
}
