/** `NeuralAnalytics.refreshData` (app.js): per-subject tallies of the vault's
    study sessions, shown as bars capped at 100%. */
module Analytics {
  import opened Wrappers
  import opened Persistence
  import Studio

  /** The subjects the dashboard tallies. */
  const Subjects: set<string> := {"biology", "chemistry", "physics"}
  const PointsPerSession: nat := 10
  const MaxPercent: nat := 100

  /** One subject's tally. */
  datatype Stat = Stat(count: nat, score: nat)

  /** `item.metadata.subject`, when it is text. */
  function SubjectOf(r: Record): Option<string> {
    if "metadata.subject" in r.attrs && r.attrs["metadata.subject"].TextAttr? then
      Some(r.attrs["metadata.subject"].text)
    else None
  }

  /** The number of records whose subject is `s`. */
  function CountOf(items: seq<Record>, s: string): (n: nat)
    ensures n <= |items|
  {
    if items == [] then 0
    else CountOf(items[..|items| - 1], s) + (if SubjectOf(items[|items| - 1]) == Some(s) then 1 else 0)
  }

  /** The tallies `refreshData` builds: for each subject, the sessions on it
      and ten points for each. */
  function Tallies(items: seq<Record>): (stats: map<string, Stat>)
    ensures stats.Keys == Subjects
    ensures forall s | s in stats :: stats[s].score == PointsPerSession * stats[s].count
  {
    map s | s in Subjects :: Stat(CountOf(items, s), PointsPerSession * CountOf(items, s))
  }

  /** `Math.min(score, 100)`: the width of a subject's bar. */
  function Percentage(st: Stat): (p: nat)
    ensures p <= MaxPercent
    ensures p == MaxPercent <==> st.score >= MaxPercent
    ensures p < MaxPercent ==> p == st.score
  {
    if st.score < MaxPercent then st.score else MaxPercent
  }

  /** The tally loop: each record whose subject is one of the three adds one
      session and ten points to it; every other record is passed over. */
  method Tally(items: seq<Record>) returns (stats: map<string, Stat>)
    ensures stats == Tallies(items)
  {
    stats := map["biology" := Stat(0, 0), "chemistry" := Stat(0, 0), "physics" := Stat(0, 0)];
    var i := 0;
    while i < |items|
      invariant 0 <= i <= |items|
      invariant stats.Keys == Subjects
      invariant forall s | s in Subjects :: stats[s] == Stat(CountOf(items[..i], s), PointsPerSession * CountOf(items[..i], s))
    {
      assert items[..i + 1][..i] == items[..i];
      var subject := SubjectOf(items[i]);
      if subject.Some? && subject.value in stats {
        var st := stats[subject.value];
        stats := stats[subject.value := Stat(st.count + 1, st.score + PointsPerSession)];
      }
      i := i + 1;
    }
    assert items[..i] == items;
  }

  /** The bars the dashboard shows, by subject. */
  function Bars(items: seq<Record>): (bars: map<string, nat>)
    ensures bars.Keys == Subjects
    ensures forall s | s in bars :: bars[s] <= MaxPercent
  {
    var stats := Tallies(items);
    map s | s in Subjects :: Percentage(stats[s])
  }

  /** A bar is full exactly when its subject has ten sessions or more. */
  lemma BarFullIffTenSessions(items: seq<Record>, s: string)
    requires s in Subjects
    ensures Bars(items)[s] == MaxPercent <==> CountOf(items, s) >= 10
    ensures Bars(items)[s] < MaxPercent ==> Bars(items)[s] == PointsPerSession * CountOf(items, s)
  {
  }

  /** Adding a record adds at most one session, to its own subject only. */
  lemma {:induction false} CountAppend(items: seq<Record>, r: Record, s: string)
    ensures CountOf(items + [r], s) == CountOf(items, s) + (if SubjectOf(r) == Some(s) then 1 else 0)
  {
    assert (items + [r])[..|items|] == items;
  }

  /** Records with no subject leave every tally as it is; the files
      `saveToVault` stores carry none, so they never count. */
  lemma {:induction false} VaultFilesNotTallied(items: seq<Record>, id: string, kind: string, format: string,
                                               content: string, timestamp: string, s: string)
    ensures CountOf(items + [Studio.Entry(id, kind, format, content, timestamp)], s) == CountOf(items, s)
  {
    var e := Studio.Entry(id, kind, format, content, timestamp);
    assert "metadata.subject" !in e.attrs;
    CountAppend(items, e, s);
  }

  /** `refreshData` ends with these bars when the vault's records, listed in
      key order, tally to them. */
  ghost predicate ShowsBars(vault: ObjectStore, bars: map<string, nat>) {
    exists recs :: ListsInKeyOrder(recs, vault) && bars == Bars(recs)
  }

  /** `refreshData()`: reads the vault, tallies it and gives the bars. */
  method RefreshData(db: NeuralDB) returns (r: Result<map<string, nat>, DbError>)
    requires db.Valid()
    modifies db
    ensures db.Valid()
    ensures db.State() == GetAllOp(old(db.State()), "vault").0
    ensures match GetAllOp(old(db.State()), "vault").1
      case Failure(e) => r == Failure(e)
      case Success(vault) => r.Success? && ShowsBars(vault, r.value)
  {
    ghost var before := db.State();
    var listed := db.GetAll("vault");
    if listed.Failure? {
      return Failure(listed.error);
    }
    var stats := Tally(listed.value);
    var bars := map s | s in Subjects :: Percentage(stats[s]);
    assert bars == Bars(listed.value);
    assert ShowsBars(GetAllOp(before, "vault").1.value, bars);
    r := Success(bars);
  }
}
