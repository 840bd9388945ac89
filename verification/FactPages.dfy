/** The bookkeeping of page attempts (adapters/facts_store.py): what a page's row says about its attempts. */
module FactPages {
  import opened Options

  datatype Outcome = Failed(status: string) | Unchanged | Changed(snapshot: int)

  datatype Attempt = Attempt(school: int, tab: string, outcome: Outcome, at: int)

  datatype Page = Page(latestSnapshot: Option<int>, lastStatus: string, lastAttempted: int, lastFetched: Option<int>,
                       lastChanged: Option<int>, consecutiveFailures: nat)

  /** The attempts at one page. */
  function Of(log: seq<Attempt>, page: (int, string)): seq<Attempt> {
    if log == [] then []
    else
      var a := log[|log| - 1];
      Of(log[..|log| - 1], page) + (if (a.school, a.tab) == page then [a] else [])
  }

  /** The attempts since the last one that fetched the page. */
  function FailuresInARow(attempts: seq<Attempt>): (n: nat)
    ensures n <= |attempts|
  {
    if attempts == [] || !attempts[|attempts| - 1].outcome.Failed? then 0
    else 1 + FailuresInARow(attempts[..|attempts| - 1])
  }

  function LastFetch(attempts: seq<Attempt>): Option<int> {
    if attempts == [] then None
    else if !attempts[|attempts| - 1].outcome.Failed? then Some(attempts[|attempts| - 1].at)
    else LastFetch(attempts[..|attempts| - 1])
  }

  function LastChange(attempts: seq<Attempt>): Option<int> {
    if attempts == [] then None
    else if attempts[|attempts| - 1].outcome.Changed? then Some(attempts[|attempts| - 1].at)
    else LastChange(attempts[..|attempts| - 1])
  }

  function LatestSnapshot(attempts: seq<Attempt>): Option<int> {
    if attempts == [] then None
    else if attempts[|attempts| - 1].outcome.Changed? then Some(attempts[|attempts| - 1].outcome.snapshot)
    else LatestSnapshot(attempts[..|attempts| - 1])
  }

  /** The row that a page's attempts call for. */
  function Told(attempts: seq<Attempt>): Page
    requires attempts != []
  {
    var last := attempts[|attempts| - 1];
    Page(LatestSnapshot(attempts), if last.outcome.Failed? then last.outcome.status else "ok", last.at,
         LastFetch(attempts), LastChange(attempts), FailuresInARow(attempts))
  }

  /** Every page that was attempted has the row its attempts call for, and no other page has a row. */
  ghost predicate Tells(pages: map<(int, string), Page>, log: seq<Attempt>) {
    forall page :: (page in pages <==> Of(log, page) != []) && (page in pages ==> pages[page] == Told(Of(log, page)))
  }

  /** Exactly the counted attempts failed, and the one before them did not. */
  lemma {:induction false} FailuresMeans(attempts: seq<Attempt>)
    ensures var n := FailuresInARow(attempts);
            && (forall i :: |attempts| - n <= i < |attempts| ==> attempts[i].outcome.Failed?)
            && (n < |attempts| ==> !attempts[|attempts| - n - 1].outcome.Failed?)
            && (n < |attempts| <==> LastFetch(attempts).Some?)
            && (n < |attempts| ==> LastFetch(attempts) == Some(attempts[|attempts| - n - 1].at))
  {
    if attempts != [] && attempts[|attempts| - 1].outcome.Failed? {
      FailuresMeans(attempts[..|attempts| - 1]);
    }
  }

  /** The snapshot and the time of change are those of the last attempt that found the page changed. */
  lemma {:induction false} ChangeMeans(attempts: seq<Attempt>, i: nat)
    requires i < |attempts| && attempts[i].outcome.Changed?
    requires forall j | i < j < |attempts| :: !attempts[j].outcome.Changed?
    ensures LastChange(attempts) == Some(attempts[i].at)
    ensures LatestSnapshot(attempts) == Some(attempts[i].outcome.snapshot)
  {
    if i < |attempts| - 1 {
      ChangeMeans(attempts[..|attempts| - 1], i);
    }
  }

  lemma {:induction false} NeverChanged(attempts: seq<Attempt>)
    requires forall j | 0 <= j < |attempts| :: !attempts[j].outcome.Changed?
    ensures LastChange(attempts) == None && LatestSnapshot(attempts) == None
  {
    if attempts != [] {
      NeverChanged(attempts[..|attempts| - 1]);
    }
  }

  /** Column by column, what a page's row says of its attempts; with `FailuresMeans` and `ChangeMeans`, all of it. */
  lemma RowMeans(pages: map<(int, string), Page>, log: seq<Attempt>, page: (int, string))
    requires Tells(pages, log) && page in pages
    ensures var attempts := Of(log, page);
            && attempts != []
            && (var last := attempts[|attempts| - 1];
                && pages[page].lastAttempted == last.at
                && pages[page].lastStatus == (if last.outcome.Failed? then last.outcome.status else "ok")
                && pages[page].lastFetched == LastFetch(attempts)
                && pages[page].lastChanged == LastChange(attempts)
                && pages[page].latestSnapshot == LatestSnapshot(attempts)
                && pages[page].consecutiveFailures == FailuresInARow(attempts))
  {
  }

  lemma OneMore(log: seq<Attempt>, a: Attempt, page: (int, string))
    ensures Of(log + [a], page) == Of(log, page) + (if (a.school, a.tab) == page then [a] else [])
    ensures Of(log, page) + [] == Of(log, page)
    ensures (Of(log, page) + [a])[..|Of(log, page)|] == Of(log, page)
  {
    assert (log + [a])[..|log|] == log;
  }

  lemma RowTells(pages: map<(int, string), Page>, log: seq<Attempt>, a: Attempt, row: Page)
    requires Tells(pages, log)
    requires row == Told(Of(log, (a.school, a.tab)) + [a])
    ensures Tells(pages[(a.school, a.tab) := row], log + [a])
  {
    hide Of, Told;
    var after := pages[(a.school, a.tab) := row];
    forall page ensures page in after <==> Of(log + [a], page) != []
                ensures page in after ==> after[page] == Told(Of(log + [a], page))
    {
      OneMore(log, a, page);
    }
  }

  class SchoolPages {
    var pages: map<(int, string), Page>
    ghost var log: seq<Attempt>

    ghost predicate Valid()
      reads this
    {
      Tells(pages, log)
    }

    constructor ()
      ensures Valid() && log == []
    {
      pages, log := map[], [];
    }

    /** The time of the attempt advances, that of the last fetch does not, and one more failure is counted. */
    method RecordFailure(school: int, tab: string, status: string, now: int)
      requires Valid()
      modifies this
      ensures Valid() && log == old(log) + [Attempt(school, tab, Failed(status), now)]
    {
      hide Tells;
      ghost var a := Attempt(school, tab, Failed(status), now);
      var page := (school, tab);
      RowOf(pages, log, a);
      var row := if page !in pages then Page(None, status, now, None, None, 1)
                 else pages[page].(lastStatus := status, lastAttempted := now,
                                   consecutiveFailures := pages[page].consecutiveFailures + 1);
      RowTells(pages, log, a, row);
      pages := pages[page := row];
      log := log + [a];
    }

    /** The hash-equal case: only the liveness columns are refreshed. */
    method RecordUnchanged(school: int, tab: string, now: int)
      requires Valid()
      modifies this
      ensures Valid() && log == old(log) + [Attempt(school, tab, Unchanged, now)]
    {
      hide Tells;
      ghost var a := Attempt(school, tab, Unchanged, now);
      var page := (school, tab);
      RowOf(pages, log, a);
      var row := if page !in pages then Page(None, "ok", now, Some(now), None, 0)
                 else pages[page].(lastStatus := "ok", lastAttempted := now, lastFetched := Some(now),
                                   consecutiveFailures := 0);
      RowTells(pages, log, a, row);
      pages := pages[page := row];
      log := log + [a];
    }

    method RecordChanged(school: int, tab: string, snapshot: int, now: int)
      requires Valid()
      modifies this
      ensures Valid() && log == old(log) + [Attempt(school, tab, Changed(snapshot), now)]
    {
      hide Tells;
      ghost var a := Attempt(school, tab, Changed(snapshot), now);
      var page := (school, tab);
      RowOf(pages, log, a);
      var row := Page(Some(snapshot), "ok", now, Some(now), Some(now), 0);
      RowTells(pages, log, a, row);
      pages := pages[page := row];
      log := log + [a];
    }
  }

  /** What the row before an attempt says, and how the parts of a row follow one more attempt. */
  lemma RowOf(pages: map<(int, string), Page>, log: seq<Attempt>, a: Attempt)
    requires Tells(pages, log)
    ensures var page := (a.school, a.tab);
            && (page in pages <==> Of(log, page) != [])
            && (page in pages ==> pages[page] == Told(Of(log, page)))
            && Told(Of(log, page) + [a]) == Next(Of(log, page), a)
  {
    OneMore(log, a, (a.school, a.tab));
  }

  /** The row after one more attempt, from the attempts before it. */
  function Next(attempts: seq<Attempt>, a: Attempt): Page {
    match a.outcome
    case Failed(status) =>
      Page(LatestSnapshot(attempts), status, a.at, LastFetch(attempts), LastChange(attempts), FailuresInARow(attempts) + 1)
    case Unchanged => Page(LatestSnapshot(attempts), "ok", a.at, Some(a.at), LastChange(attempts), 0)
    case Changed(snapshot) => Page(Some(snapshot), "ok", a.at, Some(a.at), Some(a.at), 0)
  }
}
