/** `ExamEngine` (app.js): the three-phase final exam (objectives, fill-ins,
    theory), and `getStanding`, which names the band a final grade falls in. */
module Exam {
  import opened Wrappers
  import opened Persistence
  import opened ExamGen

  /** What the exam overlay shows. */
  datatype View =
    | Closed           // no exam under way
    | Phase(n: nat)    // the questions of phase `n`
    | Finished         // `finishExam` has been reached

  /** The engine's state: the phase counter, the view, and the phase scores. */
  datatype Engine = Engine(phase: int, view: View, p1: real, p2: real, p3: real)

  /** A rendered phase is the phase the counter holds, and lies in 1..3. */
  predicate Coherent(e: Engine) {
    e.phase >= 0 && (e.view.Phase? ==> e.view.n == e.phase && 1 <= e.phase <= 3)
  }

  /** `startNextPhase`: the counter goes up by one; phases 1 to 3 are rendered,
      any later one finishes the exam. */
  function StartNext(e: Engine): (r: Engine)
    requires e.phase >= 0
    ensures Coherent(r)
    ensures r.phase == e.phase + 1
    ensures r.view == Finished <==> r.phase > 3
    ensures (r.p1, r.p2, r.p3) == (e.p1, e.p2, e.p3)
  {
    var n := e.phase + 1;
    e.(phase := n, view := if n <= 3 then Phase(n) else Finished)
  }

  /** `submitCurrentPhase` with the score of the phase on show: the score is
      written to that phase's slot only; from phase 3 on the exam finishes,
      before it the next phase starts. */
  function Submit(e: Engine, score: real): (r: Engine)
    requires e.phase >= 0
    ensures Coherent(r)
    ensures r.p1 == (if e.phase == 1 then score else e.p1)
    ensures r.p2 == (if e.phase == 2 then score else e.p2)
    ensures r.p3 == (if e.phase == 3 then score else e.p3)
    ensures e.phase >= 3 ==> r.phase == e.phase && r.view == Finished
    ensures e.phase < 3 ==> r.phase == e.phase + 1 && r.view == Phase(r.phase)
  {
    var scored :=
      if e.phase == 1 then e.(p1 := score)
      else if e.phase == 2 then e.(p2 := score)
      else if e.phase == 3 then e.(p3 := score)
      else e;
    if e.phase >= 3 then scored.(view := Finished) else StartNext(scored)
  }

  /** A whole exam: `init` sets the counter to 0 and starts phase 1, and three
      submissions render phases 2 and 3, then finish with each score in its
      own slot. Phase 4 is never rendered. This is the flow without the
      `this.logs.phase1` write, which as written throws in phase 1. */
  lemma ExamRunsThreePhases(e: Engine, s1: real, s2: real, s3: real)
    ensures var e0 := StartNext(e.(phase := 0));
      var e1 := Submit(e0, s1);
      var e2 := Submit(e1, s2);
      var e3 := Submit(e2, s3);
      && e0.view == Phase(1)
      && e1.view == Phase(2)
      && e2.view == Phase(3)
      && e3.view == Finished && e3.phase == 3
      && (e3.p1, e3.p2, e3.p3) == (s1, s2, s3)
  {
  }

  /** However submissions and phase starts follow one another, what is
      rendered is a phase from 1 to 3. */
  lemma {:induction false} NoFourthPhase(e: Engine, steps: seq<Option<real>>)
    requires Coherent(e)
    ensures Coherent(Run(e, steps))
    decreases |steps|
  {
    if steps != [] {
      var next := match steps[0] case None => StartNext(e) case Some(s) => Submit(e, s);
      NoFourthPhase(next, steps[1..]);
    }
  }

  /** A sequence of phase starts (None) and submissions (Some(score)). */
  function Run(e: Engine, steps: seq<Option<real>>): Engine
    requires e.phase >= 0
    decreases |steps|
  {
    if steps == [] then e
    else
      var next := match steps[0] case None => StartNext(e) case Some(s) => Submit(e, s);
      Run(next, steps[1..])
  }

  /** How `init` ends. */
  datatype InitOutcome =
    | Started
    | NotEnoughNotes          // `generateFullExam` gave null: an alert, and no exam
    | Failed(error: ExamError)

  /** The `ExamEngine` object, with the database the notes are read from. */
  class ExamEngine {
    var currentPhase: int
    var view: View
    var examData: Exam
    var p1: real
    var p2: real
    var p3: real
    const db: NeuralDB

    function State(): Engine
      reads this
    {
      Engine(currentPhase, view, p1, p2, p3)
    }

    ghost predicate Valid()
      reads this, db
    {
      Coherent(State()) && db.Valid()
    }

    constructor (db: NeuralDB)
      requires db.Valid()
      ensures Valid() && State() == Engine(0, Closed, 0.0, 0.0, 0.0)
      ensures examData == Exam([], [], [])
    {
      currentPhase := 0;
      view := Closed;
      examData := Exam([], [], []);
      p1, p2, p3 := 0.0, 0.0, 0.0;
      this.db := db;
    }

    method StartNextPhase()
      requires currentPhase >= 0 && db.Valid()
      modifies this
      ensures Valid()
      ensures State() == StartNext(old(State())) && examData == old(examData)
    {
      currentPhase := currentPhase + 1;
      if currentPhase <= 3 {
        view := Phase(currentPhase);
      } else {
        view := Finished;
      }
    }

    method SubmitCurrentPhase(score: real)
      requires Valid()
      modifies this
      ensures Valid()
      ensures State() == Submit(old(State()), score) && examData == old(examData)
    {
      if currentPhase == 1 {
        p1 := score;
      } else if currentPhase == 2 {
        p2 := score;
      } else if currentPhase == 3 {
        p3 := score;
      }
      if currentPhase >= 3 {
        view := Finished;
      } else {
        StartNextPhase();
      }
    }

    /** `init(subject)`: the exam is generated from the vault; with no exam
        nothing changes, otherwise the counter is set to 0 and phase 1 starts.
        The scores of an earlier exam are kept. */
    method Init(subject: string, order: nat -> seq<Swap>) returns (r: InitOutcome)
      requires Valid()
      modifies this, db
      ensures Valid()
      ensures db.State() == GetAllOp(old(db.State()), "vault").0
      ensures GetAllOp(old(db.State()), "vault").1.Failure? ==>
        r == Failed(StoreFailed(GetAllOp(old(db.State()), "vault").1.error))
      ensures GetAllOp(old(db.State()), "vault").1.Success? ==>
        InitYields(GetAllOp(old(db.State()), "vault").1.value, subject, order, r, examData)
      ensures r == Started ==> State() == StartNext(old(State()).(phase := 0))
      ensures r != Started ==> State() == old(State()) && examData == old(examData)
    {
      ghost var before := db.State();
      var listed := db.GetAll("vault");
      if listed.Failure? {
        return Failed(StoreFailed(listed.error));
      }
      var data;
      r, data := Generate(listed.value, GetAllOp(before, "vault").1.value, subject, order);
      if r != Started {
        return;
      }
      Begin(data);
    }

    /** The end of a successful `init`: the generated exam is kept, the
        counter is set to 0 and phase 1 starts. */
    method Begin(data: Exam)
      requires Valid()
      modifies this
      ensures Valid()
      ensures State() == StartNext(old(State()).(phase := 0)) && examData == data
    {
      examData := data;
      currentPhase := 0;
      StartNextPhase();
    }
  }

  /** `generateFullExam(subject)` on the vault's records as `getAll` listed
      them, and how `init` reacts to what it gives. */
  method Generate(recs: seq<Record>, ghost vault: ObjectStore, subject: string, order: nat -> seq<Swap>)
    returns (r: InitOutcome, data: Exam)
    requires ListsInKeyOrder(recs, vault)
    ensures InitYields(vault, subject, order, r, data)
  {
    var generated := FullExam(recs, subject, order);
    r := InitResult(generated);
    data := if r == Started then generated.value.value else Exam([], [], []);
  }

  /** `init` ends with `r` and exam `data` when `generateFullExam` runs over
      the vault's records listed in key order. */
  ghost predicate InitYields(vault: ObjectStore, subject: string, order: nat -> seq<Swap>,
                             r: InitOutcome, data: Exam) {
    exists recs :: ListsInKeyOrder(recs, vault)
      && r == InitResult(FullExam(recs, subject, order))
      && (r == Started ==> data == FullExam(recs, subject, order).value.value)
  }

  /** How `init` ends, given what `generateFullExam` gave. */
  function InitResult(generated: Result<Option<Exam>, ExamError>): (r: InitOutcome)
    ensures r == Started <==> generated.Success? && generated.value.Some?
  {
    match generated
    case Failure(e) => Failed(e)
    case Success(None) => NotEnoughNotes
    case Success(Some(_)) => Started
  }

  // ---------------------------------------------------------------------
  // Standing

  const Standings: seq<string> :=
    ["Requires Sync (Delta)", "Competent (Gamma)", "Excellence (Beta)", "Distinction (Alpha)"]

  /** The band of a grade: 3 from 90 up, 2 from 70, 1 from 50, else 0. */
  function Band(score: real): (b: nat)
    ensures b < |Standings|
    ensures b == 3 <==> score >= 90.0
    ensures b >= 2 <==> score >= 70.0
    ensures b >= 1 <==> score >= 50.0
  {
    if score >= 90.0 then 3 else if score >= 70.0 then 2 else if score >= 50.0 then 1 else 0
  }

  /** `getStanding(score)`. */
  function Standing(score: real): (s: string)
    ensures s == Standings[Band(score)]
  {
    if score >= 90.0 then "Distinction (Alpha)"
    else if score >= 70.0 then "Excellence (Beta)"
    else if score >= 50.0 then "Competent (Gamma)"
    else "Requires Sync (Delta)"
  }

  /** A higher grade never falls in a lower band, and the four names differ. */
  lemma StandingIsMonotone(a: real, b: real)
    requires a <= b
    ensures Band(a) <= Band(b)
    ensures Standing(a) == Standing(b) <==> Band(a) == Band(b)
  {
  }
}
