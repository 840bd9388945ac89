/**
 * The history of a school's facts (adapters/facts_store.py): what one write does to the table of dated rows, and
 * why the table still tells every past state.
 */
module FactHistory {
  import opened Options

  type Tab = string

  /** All that `_value_changed` compares: the kind, the typed columns and the structured payload. */
  datatype Content = Content(kind: string, num: Option<real>, text: Option<string>, flag: Option<bool>,
                             date: Option<int>, inner: string)

  datatype Value = Value(content: Content, display: string, unit: Option<string>)

  /** One mapped fact; `value` is None for an unmapped label or an explicit absence. */
  datatype Mapped = Mapped(key: string, tab: Tab, section: string, caption: string, value: Option<Value>,
                           sourcePath: string, period: Option<string>, periodYear: Option<int>)

  /** The columns that a later write of the same content overwrites in place. */
  datatype Meta = Meta(display: string, unit: Option<string>, mapperVersion: string, sourcePath: string,
                       snapshotId: int)

  /** The columns fixed when the row is inserted. */
  datatype Origin = Origin(section: string, caption: string, period: Option<string>, periodYear: Option<int>,
                           snapshotSha: string)

  datatype Row = Row(school: int, key: string, tab: Tab, content: Content, meta: Meta, origin: Origin,
                     validFrom: int, validTo: Option<int>)

  datatype Write = Write(school: int, tabs: seq<Tab>, mapped: seq<Mapped>, snapshotIds: map<Tab, int>,
                         snapshotShas: map<Tab, string>, mapperVersion: string, time: int)

  /** The row of each key that a write stores: of the changed tabs' rows with a value, the last one. */
  function NewByKey(mapped: seq<Mapped>, tabs: seq<Tab>): (r: map<string, Mapped>)
    ensures forall k :: k in r ==> r[k].key == k && r[k].value.Some? && r[k].tab in tabs
  {
    if mapped == [] then map[]
    else
      var last := mapped[|mapped| - 1];
      var before := NewByKey(mapped[..|mapped| - 1], tabs);
      if last.tab in tabs && last.value.Some? then before[last.key := last] else before
  }

  function New(w: Write): map<string, Mapped> {
    NewByKey(w.mapped, w.tabs)
  }

  predicate Stored(m: Mapped, tabs: seq<Tab>, key: string) {
    m.key == key && m.tab in tabs && m.value.Some?
  }

  lemma {:induction false} NewIsMapped(mapped: seq<Mapped>, tabs: seq<Tab>, key: string)
    requires key in NewByKey(mapped, tabs)
    ensures NewByKey(mapped, tabs)[key] in mapped
  {
    var n := |mapped| - 1;
    if key in NewByKey(mapped[..n], tabs) {
      NewIsMapped(mapped[..n], tabs, key);
    }
  }

  /** Of the rows that could be stored for a key the last one is. */
  lemma {:induction false} LastOfKeyWins(mapped: seq<Mapped>, tabs: seq<Tab>, key: string, i: nat)
    requires i < |mapped| && Stored(mapped[i], tabs, key)
    requires forall j :: i < j < |mapped| ==> !Stored(mapped[j], tabs, key)
    ensures key in NewByKey(mapped, tabs) && NewByKey(mapped, tabs)[key] == mapped[i]
  {
    var n := |mapped| - 1;
    if i < n {
      assert !Stored(mapped[n], tabs, key);
      LastOfKeyWins(mapped[..n], tabs, key, i);
    }
  }

  lemma NewOnChangedTabs(w: Write, tabOf: string -> Tab, key: string)
    requires OneTabPerKey(w, tabOf) && key in New(w)
    ensures New(w)[key].tab == tabOf(key) && tabOf(key) in w.tabs
    ensures New(w)[key].key == key && New(w)[key].value.Some?
  {
    NewIsMapped(w.mapped, w.tabs, key);
  }

  // -- one write

  /** The open rows that a write looks at. */
  predicate Concerned(row: Row, school: int, tabs: seq<Tab>) {
    row.school == school && row.validTo.None? && row.tab in tabs
  }

  /** The write has the row's key with the row's content. */
  predicate Matches(row: Row, byKey: map<string, Mapped>) {
    row.key in byKey && byKey[row.key].value.Some? && byKey[row.key].value.value.content == row.content
  }

  function MetaOf(m: Mapped, w: Write): Meta
    requires m.value.Some? && m.tab in w.snapshotIds
  {
    Meta(m.value.value.display, m.value.value.unit, w.mapperVersion, m.sourcePath, w.snapshotIds[m.tab])
  }

  /** What the fixed columns are when the row is inserted. */
  function OriginOf(m: Mapped, w: Write): Origin
    requires m.tab in w.snapshotShas
  {
    Origin(m.section, m.caption, m.period, m.periodYear, w.snapshotShas[m.tab])
  }

  /** Column by column, what a write refreshes. */
  predicate IsRefreshed(row: Row, m: Mapped, w: Write) {
    && m.value.Some? && m.tab in w.snapshotIds
    && row.key == m.key && row.content == m.value.value.content
    && row.meta.display == m.value.value.display
    && row.meta.unit == m.value.value.unit
    && row.meta.mapperVersion == w.mapperVersion
    && row.meta.sourcePath == m.sourcePath
    && row.meta.snapshotId == w.snapshotIds[m.tab]
  }

  /** Column by column, what only an insert writes. */
  predicate IsFixed(row: Row, m: Mapped, w: Write) {
    && m.value.Some? && m.tab in w.snapshotShas
    && row.school == w.school && row.validFrom == w.time
    && row.key == m.key && row.tab == m.tab && row.content == m.value.value.content
    && row.origin.section == m.section
    && row.origin.caption == m.caption
    && row.origin.period == m.period
    && row.origin.periodYear == m.periodYear
    && row.origin.snapshotSha == w.snapshotShas[m.tab]
  }

  /** The caller has recorded a snapshot of every tab it says has changed. */
  predicate Sourced(w: Write) {
    forall tab :: tab in w.tabs ==> tab in w.snapshotIds && tab in w.snapshotShas
  }

  /** What becomes of a row: left alone, closed, or its metadata refreshed. */
  function After(row: Row, w: Write): Row
    requires Sourced(w)
  {
    if !Concerned(row, w.school, w.tabs) then row
    else if Matches(row, New(w)) then row.(meta := MetaOf(New(w)[row.key], w))
    else row.(validTo := Some(w.time))
  }

  function Fresh(m: Mapped, w: Write): Row
    requires Sourced(w) && m.tab in w.tabs && m.value.Some?
  {
    Row(w.school, m.key, m.tab, m.value.value.content, MetaOf(m, w), OriginOf(m, w), w.time, None)
  }

  lemma FreshColumns(m: Mapped, w: Write)
    requires Sourced(w) && m.tab in w.tabs && m.value.Some?
    ensures IsFixed(Fresh(m, w), m, w) && IsRefreshed(Fresh(m, w), m, w)
  {
  }

  /** Some open row already says what the write says of the key. */
  ghost predicate Stays(rows: seq<Row>, w: Write, key: string) {
    exists i :: 0 <= i < |rows| && Concerned(rows[i], w.school, w.tabs) && rows[i].key == key
                && Matches(rows[i], New(w))
  }

  /** The table after a write, in whatever order the new rows were inserted. */
  ghost predicate IsWrite(rows: seq<Row>, w: Write, after: seq<Row>)
    requires Sourced(w)
  {
    && |rows| <= |after|
    && (forall i :: 0 <= i < |rows| ==> after[i] == After(rows[i], w))
    && (forall i :: |rows| <= i < |after| ==> IsInsert(after[i], rows, w))
    && (forall i, j :: |rows| <= i < j < |after| ==> after[i].key != after[j].key)
    && (forall key :: key in New(w) && !Stays(rows, w, key) ==> HasInsert(after, |rows|, key))
  }

  ghost predicate IsInsert(row: Row, rows: seq<Row>, w: Write)
    requires Sourced(w)
  {
    row.key in New(w) && !Stays(rows, w, row.key) && row == Fresh(New(w)[row.key], w)
  }

  ghost predicate HasInsert(after: seq<Row>, from: nat, key: string) {
    exists i :: from <= i < |after| && after[i].key == key
  }

  // -- the table's invariant

  /** A key belongs to one tab; a later row of a school's key begins when or after all earlier ones have ended. */
  ghost predicate Valid(rows: seq<Row>, tabOf: string -> Tab) {
    && (forall i :: 0 <= i < |rows| ==> rows[i].tab == tabOf(rows[i].key))
    && (forall i :: 0 <= i < |rows| && rows[i].validTo.Some? ==> rows[i].validFrom < rows[i].validTo.value)
    && (forall i, j :: 0 <= i < j < |rows| ==> Precedes(rows[i], rows[j]))
  }

  predicate SameFact(a: Row, b: Row) {
    a.school == b.school && a.key == b.key
  }

  predicate Precedes(a: Row, b: Row) {
    SameFact(a, b) ==> a.validTo.Some? && a.validTo.value <= b.validFrom
  }

  predicate LiveAt(row: Row, t: int) {
    row.validFrom <= t && (row.validTo.Some? ==> t < row.validTo.value)
  }

  /** The intervals of one fact never overlap, and at most one of them is open. */
  lemma NeverOverlap(rows: seq<Row>, tabOf: string -> Tab, i: nat, j: nat, t: int)
    requires Valid(rows, tabOf) && i < |rows| && j < |rows| && SameFact(rows[i], rows[j])
    ensures LiveAt(rows[i], t) && LiveAt(rows[j], t) ==> i == j
    ensures rows[i].validTo.None? && rows[j].validTo.None? ==> i == j
  {
    if i < j {
      assert Precedes(rows[i], rows[j]);
    } else if j < i {
      assert Precedes(rows[j], rows[i]);
    }
  }

  /** The school's rows all began, and if they ended also ended, before `time`. */
  predicate Past(rows: seq<Row>, school: int, time: int) {
    forall i :: 0 <= i < |rows| && rows[i].school == school ==>
      rows[i].validFrom < time && (rows[i].validTo.Some? ==> rows[i].validTo.value < time)
  }

  predicate OneTabPerKey(w: Write, tabOf: string -> Tab) {
    forall m :: m in w.mapped ==> m.tab == tabOf(m.key)
  }

  /** A write keeps the invariant. */
  lemma WriteKeepsValid(rows: seq<Row>, w: Write, after: seq<Row>, tabOf: string -> Tab)
    requires Sourced(w) && OneTabPerKey(w, tabOf) && Valid(rows, tabOf) && Past(rows, w.school, w.time)
    requires IsWrite(rows, w, after)
    ensures Valid(after, tabOf)
  {
    hide NewByKey, Stays, HasInsert;
    forall i | 0 <= i < |after|
      ensures after[i].tab == tabOf(after[i].key)
      ensures after[i].validTo.Some? ==> after[i].validFrom < after[i].validTo.value
    {
      if i >= |rows| {
        InsertIsNew(rows, w, after, i);
        NewOnChangedTabs(w, tabOf, after[i].key);
      } else {
        assert after[i] == After(rows[i], w);
      }
    }
    forall i, j | 0 <= i < j < |after| ensures Precedes(after[i], after[j]) {
      if j < |rows| {
        assert Precedes(rows[i], rows[j]);
        assert after[i] == After(rows[i], w) && after[j] == After(rows[j], w);
      } else if i < |rows| {
        InsertFollows(rows, w, after, tabOf, i, j);
      } else {
        assert after[i].key != after[j].key;
      }
    }
  }

  lemma MatchStays(rows: seq<Row>, w: Write, i: nat)
    requires i < |rows| && Concerned(rows[i], w.school, w.tabs)
    ensures Matches(rows[i], New(w)) ==> Stays(rows, w, rows[i].key)
  {
  }

  /** A row is inserted only for a key none of whose rows stays open. */
  lemma InsertFollows(rows: seq<Row>, w: Write, after: seq<Row>, tabOf: string -> Tab, i: nat, j: nat)
    requires Sourced(w) && OneTabPerKey(w, tabOf) && Valid(rows, tabOf) && Past(rows, w.school, w.time)
    requires IsWrite(rows, w, after) && i < |rows| <= j < |after|
    ensures Precedes(after[i], after[j])
  {
    hide NewByKey, HasInsert;
    hide Stays;
    InsertIsNew(rows, w, after, j);
    NewOnChangedTabs(w, tabOf, after[j].key);
    assert after[i] == After(rows[i], w);
    if SameFact(after[i], after[j]) && rows[i].validTo.None? {
      assert Concerned(rows[i], w.school, w.tabs);
      MatchStays(rows, w, i);
    }
  }

  // -- what is open after a write

  /**
   * After a write the open rows of the changed tabs are exactly the mapped rows with a value: same key and content, and
   * each refreshed column holds what the mapped row, the write or its snapshot says.
   */
  lemma OpenIsMapped(rows: seq<Row>, w: Write, after: seq<Row>, tabOf: string -> Tab, i: nat)
    requires Sourced(w) && OneTabPerKey(w, tabOf) && IsWrite(rows, w, after)
    requires i < |after| && Concerned(after[i], w.school, w.tabs)
    ensures after[i].key in New(w) && Matches(after[i], New(w))
    ensures IsRefreshed(after[i], New(w)[after[i].key], w)
  {
    hide NewByKey, Stays, HasInsert;
    if i >= |rows| {
      assert IsInsert(after[i], rows, w);
    } else {
      assert after[i] == After(rows[i], w);
    }
  }

  /**
   * The other columns of such a row, among them the period and the digest of the snapshot, are those of its mapped row
   * exactly when this write inserted it or they were so already; and it is inserted exactly when no open row of its
   * key had its content.
   */
  lemma OriginIsCurrentIff(rows: seq<Row>, w: Write, after: seq<Row>, tabOf: string -> Tab, i: nat)
    requires Sourced(w) && OneTabPerKey(w, tabOf) && IsWrite(rows, w, after) && Valid(after, tabOf)
    requires i < |after| && Concerned(after[i], w.school, w.tabs)
    ensures after[i].key in New(w)
    ensures after[i].origin == OriginOf(New(w)[after[i].key], w)
            <==> i >= |rows| || rows[i].origin == OriginOf(New(w)[after[i].key], w)
    ensures i >= |rows| <==> !Stays(rows, w, after[i].key)
    ensures i >= |rows| ==> IsFixed(after[i], New(w)[after[i].key], w)
  {
    hide NewByKey, HasInsert;
    OpenIsMapped(rows, w, after, tabOf, i);
    if i >= |rows| {
      assert IsInsert(after[i], rows, w);
    } else {
      assert after[i] == After(rows[i], w);
      assert Concerned(rows[i], w.school, w.tabs) && Matches(rows[i], New(w));
    }
  }

  lemma MappedIsOpen(rows: seq<Row>, w: Write, after: seq<Row>, key: string) returns (i: nat)
    requires Sourced(w) && IsWrite(rows, w, after) && key in New(w)
    ensures i < |after| && Concerned(after[i], w.school, w.tabs) && after[i].key == key
  {
    hide NewByKey;
    if Stays(rows, w, key) {
      i :| 0 <= i < |rows| && Concerned(rows[i], w.school, w.tabs) && rows[i].key == key && Matches(rows[i], New(w));
      assert after[i] == After(rows[i], w);
    } else {
      assert HasInsert(after, |rows|, key);
      i :| |rows| <= i < |after| && after[i].key == key;
      assert IsInsert(after[i], rows, w);
    }
  }

  /** Rows of other schools, of other tabs, and of the past are not touched, and nothing is inserted for them. */
  lemma OthersUntouched(rows: seq<Row>, w: Write, after: seq<Row>, i: nat)
    requires Sourced(w) && IsWrite(rows, w, after) && i < |after|
    requires after[i].school != w.school || after[i].tab !in w.tabs
    ensures i < |rows| && after[i] == rows[i]
  {
    hide NewByKey, Stays, HasInsert;
    assert i >= |rows| ==> IsInsert(after[i], rows, w);
    assert after[i] == After(rows[i], w);
  }

  lemma InsertIsNew(rows: seq<Row>, w: Write, after: seq<Row>, i: nat)
    requires Sourced(w) && IsWrite(rows, w, after) && |rows| <= i < |after|
    ensures IsInsert(after[i], rows, w)
  {
  }

  /** Writing the same again later closes nothing, inserts nothing, and leaves the table as it is. */
  lemma RepeatedWriteIsNothing(rows: seq<Row>, w: Write, after: seq<Row>, later: int, again: seq<Row>,
                               tabOf: string -> Tab)
    requires Sourced(w) && OneTabPerKey(w, tabOf) && IsWrite(rows, w, after)
    requires IsWrite(after, w.(time := later), again)
    ensures again == after
  {
    hide NewByKey, HasInsert;
    var v := w.(time := later);
    forall i | 0 <= i < |after| ensures again[i] == after[i] {
      assert again[i] == After(after[i], v);
      if Concerned(after[i], w.school, w.tabs) {
        OpenIsMapped(rows, w, after, tabOf, i);
      }
    }
    forall key | key in New(w) ensures Stays(after, v, key) {
      var i := MappedIsOpen(rows, w, after, key);
      OpenIsMapped(rows, w, after, tabOf, i);
    }
    if |after| < |again| {
      InsertIsNew(after, v, again, |after|);
    }
  }

  // -- the whole history

  /** The school's facts, key by key, as a write leaves them: other tabs as before, the changed tabs as mapped. */
  function Written(facts: map<string, Content>, w: Write, tabOf: string -> Tab): map<string, Content> {
    map k | k in facts.Keys + New(w).Keys && (tabOf(k) !in w.tabs || k in New(w)) ::
      if k in New(w) then New(w)[k].value.value.content else facts[k]
  }

  /** The school's facts at time `t`: what the writes up to `t` left. */
  function FactsAt(writes: seq<Write>, school: int, t: int, tabOf: string -> Tab): map<string, Content> {
    if writes == [] then map[]
    else
      var w := writes[|writes| - 1];
      var before := FactsAt(writes[..|writes| - 1], school, t, tabOf);
      if w.school == school && w.time <= t then Written(before, w, tabOf) else before
  }

  /** The table after each write of the sequence; a school's writes are at strictly increasing times. */
  ghost predicate IsHistory(tables: seq<seq<Row>>, writes: seq<Write>, tabOf: string -> Tab) {
    && |tables| == |writes| + 1
    && tables[0] == []
    && (forall n :: 0 <= n < |writes| ==>
          && Sourced(writes[n]) && OneTabPerKey(writes[n], tabOf)
          && IsWrite(tables[n], writes[n], tables[n + 1]))
    && (forall m, n :: 0 <= m < n < |writes| && writes[m].school == writes[n].school ==>
          writes[m].time < writes[n].time)
  }

  /** The school's rows live at `t` hold exactly the facts. */
  ghost predicate Tells(rows: seq<Row>, school: int, t: int, facts: map<string, Content>) {
    && (forall i :: 0 <= i < |rows| && rows[i].school == school && LiveAt(rows[i], t) ==>
          rows[i].key in facts && facts[rows[i].key] == rows[i].content)
    && (forall key :: key in facts ==> HasLive(rows, school, t, key))
  }

  ghost predicate HasLive(rows: seq<Row>, school: int, t: int, key: string) {
    exists i :: 0 <= i < |rows| && rows[i].school == school && rows[i].key == key && LiveAt(rows[i], t)
  }

  /** A write changes nothing that was so before it. */
  lemma WriteKeepsPast(rows: seq<Row>, w: Write, after: seq<Row>, school: int, t: int, facts: map<string, Content>)
    requires Sourced(w) && IsWrite(rows, w, after) && Tells(rows, school, t, facts)
    requires school != w.school || t < w.time
    ensures Tells(after, school, t, facts)
  {
    hide New, Stays, HasInsert;
    forall i | 0 <= i < |after| && after[i].school == school && LiveAt(after[i], t)
      ensures after[i].key in facts && facts[after[i].key] == after[i].content
    {
      assert i >= |rows| ==> IsInsert(after[i], rows, w);
      assert after[i] == After(rows[i], w);
    }
    forall key | key in facts ensures HasLive(after, school, t, key) {
      assert HasLive(rows, school, t, key);
      var i :| 0 <= i < |rows| && rows[i].school == school && rows[i].key == key && LiveAt(rows[i], t);
      assert after[i] == After(rows[i], w);
    }
  }

  /** From the write on, the rows tell what it left. */
  lemma WriteTellsPresent(rows: seq<Row>, w: Write, after: seq<Row>, t: int, facts: map<string, Content>,
                          tabOf: string -> Tab)
    requires Sourced(w) && OneTabPerKey(w, tabOf) && Valid(rows, tabOf) && Past(rows, w.school, w.time)
    requires IsWrite(rows, w, after) && Tells(rows, w.school, t, facts) && w.time <= t
    ensures Tells(after, w.school, t, Written(facts, w, tabOf))
  {
    hide NewByKey, HasInsert, Tells, HasLive;
    var now := Written(facts, w, tabOf);
    forall i | 0 <= i < |after| && after[i].school == w.school && LiveAt(after[i], t)
      ensures after[i].key in now && now[after[i].key] == after[i].content
    {
      PresentIsWritten(rows, w, after, t, facts, tabOf, i);
    }
    forall key | key in now ensures HasLive(after, w.school, t, key) {
      WrittenIsPresent(rows, w, after, t, facts, tabOf, key);
    }
    assert Tells(after, w.school, t, now) by {
      TellsIfBoth(after, w.school, t, now);
    }
  }

  lemma TellsIfBoth(rows: seq<Row>, school: int, t: int, facts: map<string, Content>)
    requires forall i :: 0 <= i < |rows| && rows[i].school == school && LiveAt(rows[i], t) ==>
               rows[i].key in facts && facts[rows[i].key] == rows[i].content
    requires forall key :: key in facts ==> HasLive(rows, school, t, key)
    ensures Tells(rows, school, t, facts)
  {
  }

  lemma PresentIsWritten(rows: seq<Row>, w: Write, after: seq<Row>, t: int, facts: map<string, Content>,
                         tabOf: string -> Tab, i: nat)
    requires Sourced(w) && OneTabPerKey(w, tabOf) && Valid(rows, tabOf) && Past(rows, w.school, w.time)
    requires IsWrite(rows, w, after) && Tells(rows, w.school, t, facts) && w.time <= t
    requires i < |after| && after[i].school == w.school && LiveAt(after[i], t)
    ensures after[i].key in Written(facts, w, tabOf) && Written(facts, w, tabOf)[after[i].key] == after[i].content
  {
    hide NewByKey, HasInsert, HasLive, Stays;
    if i >= |rows| {
      assert IsInsert(after[i], rows, w);
    } else {
      assert after[i] == After(rows[i], w);
      assert LiveAt(rows[i], t);
      if rows[i].key in New(w) {
        NewOnChangedTabs(w, tabOf, rows[i].key);
      }
    }
  }

  lemma WrittenIsPresent(rows: seq<Row>, w: Write, after: seq<Row>, t: int, facts: map<string, Content>,
                         tabOf: string -> Tab, key: string)
    requires Sourced(w) && OneTabPerKey(w, tabOf) && Valid(rows, tabOf) && Past(rows, w.school, w.time)
    requires IsWrite(rows, w, after) && Tells(rows, w.school, t, facts) && w.time <= t
    requires key in Written(facts, w, tabOf)
    ensures HasLive(after, w.school, t, key)
  {
    hide NewByKey, HasInsert, Stays;
    if key in New(w) {
      var i := MappedIsOpen(rows, w, after, key);
      if i >= |rows| {
        assert IsInsert(after[i], rows, w);
      } else {
        assert after[i] == After(rows[i], w);
      }
    } else {
      assert HasLive(rows, w.school, t, key);
      var i :| 0 <= i < |rows| && rows[i].school == w.school && rows[i].key == key && LiveAt(rows[i], t);
      assert after[i] == After(rows[i], w);
    }
  }

  /** What a history makes of its tables: valid, and past from the next write's point of view. */
  lemma {:induction false} HistoryIsValid(tables: seq<seq<Row>>, writes: seq<Write>, tabOf: string -> Tab, n: nat)
    requires IsHistory(tables, writes, tabOf) && n < |tables|
    ensures Valid(tables[n], tabOf)
    ensures forall i :: 0 <= i < |tables[n]| ==> Dated(tables[n][i], writes, n)
  {
    hide IsWrite, Valid;
    if n == 0 {
      assert Valid([], tabOf) by {
        EmptyIsValid(tabOf);
      }
    } else {
      HistoryIsValid(tables, writes, tabOf, n - 1);
      HistoryIsPast(tables[n - 1], writes, n - 1);
      assert IsWrite(tables[n - 1], writes[n - 1], tables[n - 1 + 1]);
      WriteKeepsValid(tables[n - 1], writes[n - 1], tables[n], tabOf);
      WriteKeepsDated(tables[n - 1], tables[n], writes, n - 1);
    }
  }

  lemma EmptyIsValid(tabOf: string -> Tab)
    ensures Valid([], tabOf)
  {
  }

  /** The row's dates are times of writes to its school among the first `n`. */
  ghost predicate Dated(row: Row, writes: seq<Write>, n: nat)
    requires n <= |writes|
  {
    && (exists m :: 0 <= m < n && WroteAt(writes[m], row.school, row.validFrom))
    && (row.validTo.Some? ==> exists m :: 0 <= m < n && WroteAt(writes[m], row.school, row.validTo.value))
  }

  predicate WroteAt(w: Write, school: int, time: int) {
    w.school == school && w.time == time
  }

  lemma HistoryIsPast(rows: seq<Row>, writes: seq<Write>, n: nat)
    requires n < |writes| && forall i :: 0 <= i < |rows| ==> Dated(rows[i], writes, n)
    requires forall m, k :: 0 <= m < k < |writes| && writes[m].school == writes[k].school ==>
               writes[m].time < writes[k].time
    ensures Past(rows, writes[n].school, writes[n].time)
  {
    forall i | 0 <= i < |rows| && rows[i].school == writes[n].school
      ensures rows[i].validFrom < writes[n].time
      ensures rows[i].validTo.Some? ==> rows[i].validTo.value < writes[n].time
    {
      assert Dated(rows[i], writes, n);
    }
  }

  lemma WriteKeepsDated(rows: seq<Row>, after: seq<Row>, writes: seq<Write>, n: nat)
    requires n < |writes| && Sourced(writes[n]) && IsWrite(rows, writes[n], after)
    requires forall i :: 0 <= i < |rows| ==> Dated(rows[i], writes, n)
    ensures forall i :: 0 <= i < |after| ==> Dated(after[i], writes, n + 1)
  {
    hide New, Stays, HasInsert, Dated;
    forall i | 0 <= i < |after| ensures Dated(after[i], writes, n + 1) {
      if i >= |rows| {
        assert IsInsert(after[i], rows, writes[n]);
        DatedByWrite(after[i], writes, n);
      } else {
        assert after[i] == After(rows[i], writes[n]);
        DatedStill(rows[i], writes, n);
      }
    }
  }

  lemma DatedByWrite(row: Row, writes: seq<Write>, n: nat)
    requires n < |writes| && WroteAt(writes[n], row.school, row.validFrom) && row.validTo.None?
    ensures Dated(row, writes, n + 1)
  {
  }

  lemma DatedStill(row: Row, writes: seq<Write>, n: nat)
    requires n < |writes| && Dated(row, writes, n)
    ensures Dated(row, writes, n + 1)
    ensures forall meta :: Dated(row.(meta := meta), writes, n + 1)
    ensures row.school == writes[n].school ==> Dated(row.(validTo := Some(writes[n].time)), writes, n + 1)
  {
    assert row.school == writes[n].school ==> WroteAt(writes[n], row.school, writes[n].time);
  }

  /**
   * The table tells every past state: for every school, every time and every point of the history, the rows live at
   * that time hold exactly the facts that the writes so far left then. With `NeverOverlap` each fact has one row.
   */
  lemma {:induction false} HistoryTellsThePast(tables: seq<seq<Row>>, writes: seq<Write>, tabOf: string -> Tab, n: nat,
                                               school: int, t: int)
    requires IsHistory(tables, writes, tabOf) && n < |tables|
    ensures Tells(tables[n], school, t, FactsAt(writes[..n], school, t, tabOf))
  {
    hide IsWrite, Valid, Tells, Written, Past, Dated;
    if n == 0 {
      NothingTold(school, t);
    } else {
      var w := writes[n - 1];
      HistoryTellsThePast(tables, writes, tabOf, n - 1, school, t);
      HistoryIsValid(tables, writes, tabOf, n - 1);
      HistoryIsPast(tables[n - 1], writes, n - 1);
      assert IsWrite(tables[n - 1], w, tables[n - 1 + 1]);
      assert writes[..n][..n - 1] == writes[..n - 1];
      var facts := FactsAt(writes[..n - 1], school, t, tabOf);
      if w.school == school && w.time <= t {
        WriteTellsPresent(tables[n - 1], w, tables[n], t, facts, tabOf);
      } else {
        WriteKeepsPast(tables[n - 1], w, tables[n], school, t, facts);
      }
    }
  }

  lemma NothingTold(school: int, t: int)
    ensures Tells([], school, t, map[])
  {
  }

  // -- where the columns of a row come from

  /** The write that began the row gave it its content and the columns that never change. */
  ghost predicate BegunBy(row: Row, w: Write) {
    row.key in New(w) && IsFixed(row, New(w)[row.key], w)
  }

  /** A write that looked at the row while it was open. */
  predicate Saw(w: Write, row: Row) {
    w.school == row.school && row.tab in w.tabs && LiveAt(row, w.time)
  }

  /** The last write that saw the row gave it the columns that are refreshed. */
  ghost predicate RefreshedBy(row: Row, writes: seq<Write>, n: nat, k: nat)
    requires n <= |writes|
  {
    && k < n && Saw(writes[k], row)
    && row.key in New(writes[k]) && IsRefreshed(row, New(writes[k])[row.key], writes[k])
    && forall j | k < j < n :: !Saw(writes[j], row)
  }

  ghost predicate Traced(row: Row, writes: seq<Write>, n: nat)
    requires n <= |writes|
  {
    && (exists m :: 0 <= m < n && BegunBy(row, writes[m]))
    && (exists k :: RefreshedBy(row, writes, n, k))
  }

  lemma TracedByInsert(row: Row, writes: seq<Write>, n: nat)
    requires n < |writes| && BegunBy(row, writes[n]) && row.validTo.None?
    requires IsRefreshed(row, New(writes[n])[row.key], writes[n]) && row.tab in writes[n].tabs
    ensures Traced(row, writes, n + 1)
  {
    hide New;
    assert RefreshedBy(row, writes, n + 1, n);
  }

  /** A row that a write leaves alone or closes keeps its columns; the closing write does not see it live. */
  lemma TracedUnrefreshed(row: Row, writes: seq<Write>, n: nat, now: Row)
    requires n < |writes| && Traced(row, writes, n)
    requires now == row || (row.validTo.None? && now == row.(validTo := Some(writes[n].time)))
    requires !Saw(writes[n], now)
    requires forall m | 0 <= m < n && writes[m].school == writes[n].school :: writes[m].time < writes[n].time
    requires now != row ==> row.school == writes[n].school
    ensures Traced(now, writes, n + 1)
  {
    hide New;
    var m :| 0 <= m < n && BegunBy(row, writes[m]);
    assert BegunBy(now, writes[m]);
    var k :| RefreshedBy(row, writes, n, k);
    forall j | 0 <= j < n
      ensures Saw(writes[j], now) <==> Saw(writes[j], row)
    {
    }
    assert RefreshedBy(now, writes, n + 1, k);
  }

  lemma TracedRefreshed(row: Row, writes: seq<Write>, n: nat)
    requires n < |writes| && Traced(row, writes, n) && Sourced(writes[n])
    requires row.school == writes[n].school && row.tab in writes[n].tabs && row.validTo.None?
    requires row.validFrom <= writes[n].time
    requires row.key in New(writes[n]) && New(writes[n])[row.key].tab == row.tab && Matches(row, New(writes[n]))
    ensures Traced(row.(meta := MetaOf(New(writes[n])[row.key], writes[n])), writes, n + 1)
  {
    hide NewByKey;
    var now := row.(meta := MetaOf(New(writes[n])[row.key], writes[n]));
    var m :| 0 <= m < n && BegunBy(row, writes[m]);
    assert BegunBy(now, writes[m]);
    assert RefreshedBy(now, writes, n + 1, n);
  }

  /** What a write makes of a row that was traced. */
  lemma WriteKeepsTraced(rows: seq<Row>, writes: seq<Write>, n: nat, tabOf: string -> Tab, i: nat)
    requires n < |writes| && Sourced(writes[n]) && OneTabPerKey(writes[n], tabOf) && Valid(rows, tabOf)
    requires Past(rows, writes[n].school, writes[n].time)
    requires forall m | 0 <= m < n && writes[m].school == writes[n].school :: writes[m].time < writes[n].time
    requires i < |rows| && Traced(rows[i], writes, n)
    ensures Traced(After(rows[i], writes[n]), writes, n + 1)
  {
    hide New, Traced;
    var row, w := rows[i], writes[n];
    if Concerned(row, w.school, w.tabs) && Matches(row, New(w)) {
      NewOnChangedTabs(w, tabOf, row.key);
      TracedRefreshed(row, writes, n);
    } else {
      TracedUnrefreshed(row, writes, n, After(row, w));
    }
  }

  /**
   * In every history, each row has its content, section, label, period and digest from the write that began it, and
   * its display, unit, mapper version, source path and snapshot id from the last write of its tab that found it open.
   */
  lemma {:induction false} HistoryIsTraced(tables: seq<seq<Row>>, writes: seq<Write>, tabOf: string -> Tab, n: nat)
    requires IsHistory(tables, writes, tabOf) && n < |tables|
    ensures forall i | 0 <= i < |tables[n]| :: Traced(tables[n][i], writes, n)
  {
    hide IsWrite, Valid, Traced, Dated, Past, New;
    if n > 0 {
      var rows, w := tables[n - 1], writes[n - 1];
      HistoryIsTraced(tables, writes, tabOf, n - 1);
      HistoryIsValid(tables, writes, tabOf, n - 1);
      HistoryIsPast(rows, writes, n - 1);
      assert IsWrite(rows, w, tables[n - 1 + 1]);
      forall i | 0 <= i < |tables[n]|
        ensures Traced(tables[n][i], writes, n)
      {
        if i < |rows| {
          WriteKeepsTraced(rows, writes, n - 1, tabOf, i);
          KeptIsAfter(rows, w, tables[n], i);
        } else {
          InsertIsNew(rows, w, tables[n], i);
          NewOnChangedTabs(w, tabOf, tables[n][i].key);
          FreshColumns(New(w)[tables[n][i].key], w);
          TracedByInsert(tables[n][i], writes, n - 1);
        }
      }
    }
  }

  lemma KeptIsAfter(rows: seq<Row>, w: Write, after: seq<Row>, i: nat)
    requires Sourced(w) && IsWrite(rows, w, after) && i < |rows|
    ensures after[i] == After(rows[i], w)
  {
  }

  // -- a row whose columns come from two snapshots

  function OneFact(key: string, tab: Tab, value: Value, period: Option<string>, id: int, sha: string, time: int): Write {
    Write(1, [tab], [Mapped(key, tab, "section", "label", Some(value), "path", period, None)], map[tab := id], map[tab := sha], "version", time)
  }

  lemma OneFactIsNew(key: string, tab: Tab, value: Value, period: Option<string>, id: int, sha: string, time: int)
    ensures var w := OneFact(key, tab, value, period, id, sha, time);
            New(w) == map[key := Mapped(key, tab, "section", "label", Some(value), "path", period, None)] && Sourced(w)
  {
    var w := OneFact(key, tab, value, period, id, sha, time);
    assert w.mapped[..0] == [] && NewByKey([], w.tabs) == map[];
    assert tab in w.tabs;
  }

  /**
   * Two snapshots with the same value: the row keeps the first one's digest and period beside the second one's id.
   */
  lemma ColumnsOfTwoSnapshots(key: string, tab: Tab, value: Value, period: Option<string>, later: Option<string>,
                              sha: string, laterSha: string)
    returns (tables: seq<seq<Row>>, writes: seq<Write>)
    ensures |writes| == 2 && IsHistory(tables, writes, _ => tab)
    ensures writes == [OneFact(key, tab, value, period, 1, sha, 1), OneFact(key, tab, value, later, 2, laterSha, 2)]
    ensures |tables[2]| == 1 && tables[2][0].validTo.None?
    ensures tables[2][0].meta.snapshotId == 2 && tables[2][0].origin == Origin("section", "label", period, None, sha)
  {
    var v, w := OneFact(key, tab, value, period, 1, sha, 1), OneFact(key, tab, value, later, 2, laterSha, 2);
    OneFactIsNew(key, tab, value, period, 1, sha, 1);
    OneFactIsNew(key, tab, value, later, 2, laterSha, 2);
    hide New;
    var row := Fresh(New(v)[key], v);
    writes, tables := [v, w], [[], [row], [After(row, w)]];
    assert [row][0] == row && row.key == key;
    assert !Stays([], v, key);
    assert IsInsert(row, [], v);
    assert HasInsert([row], 0, key);
    assert IsWrite([], v, [row]);
    assert Stays([row], w, key);
    assert IsWrite([row], w, [After(row, w)]);
  }
}
