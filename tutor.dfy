/** The adaptive-progress state of www/app.js: per-subject mastery raised by
    the questions a student asks, experience points with level rollover, and
    the choice of a speech voice. */
module Tutor {
  import opened Wrappers
  import Text

  const MasteryCap: int := 100
  const MasteryStep: int := 5
  const XPPerLevel: int := 5000
  const XPPerQuery: int := 15

  /** The subjects in the order the chart lists them, with their starting mastery. */
  const InitialSubjects: seq<string> := ["Science", "Math", "History", "Art", "Tech"]
  const InitialMastery: map<string, int> :=
    map["Science" := 20, "Math" := 10, "History" := 5, "Art" := 15, "Tech" := 25]

  /** The text `updateMastery` looks for a subject's name in: both lower-cased. */
  predicate Mentions(text: string, subject: string) {
    Text.Contains(Text.ToLower(text), Text.ToLower(subject))
  }

  /** The mastery after `updateMastery(text)`: every subject the text mentions
      gains 5, up to 100; every other subject keeps its value. */
  function Bump(m: map<string, int>, text: string): (r: map<string, int>)
    ensures r.Keys == m.Keys
    ensures forall k | k in m && !Mentions(text, k) :: r[k] == m[k]
    ensures forall k | k in m && Mentions(text, k) ::
      r[k] == (if m[k] + MasteryStep < MasteryCap then m[k] + MasteryStep else MasteryCap)
  {
    map k | k in m :: if Mentions(text, k) then Min(MasteryCap, m[k] + MasteryStep) else m[k]
  }

  function Min(a: int, b: int): int {
    if a < b then a else b
  }

  /** Mastery values are never above 100. */
  ghost predicate Capped(m: map<string, int>) {
    forall k | k in m :: m[k] <= MasteryCap
  }

  /** `grantXP(amount)`: the points are added; reaching 5000 raises the level
      by one and starts the points again from 0. */
  function GrantXP(level: int, xp: int, amount: int): (r: (int, int))
    ensures r.1 < XPPerLevel
    ensures xp + amount >= XPPerLevel ==> r == (level + 1, 0)
    ensures xp + amount < XPPerLevel ==> r == (level, xp + amount)
  {
    if xp + amount >= XPPerLevel then (level + 1, 0) else (level, xp + amount)
  }

  /** The part of the state a query changes. */
  datatype Progress = Progress(mastery: map<string, int>, level: int, xp: int)

  /** An answered query: mastery raised for what the text mentions, then 15
      points granted. */
  function Answered(p: Progress, text: string): Progress {
    var (level, xp) := GrantXP(p.level, p.xp, XPPerQuery);
    Progress(Bump(p.mastery, text), level, xp)
  }

  /** A session of answered queries, in order. */
  function Session(p: Progress, texts: seq<string>): Progress
    decreases |texts|
  {
    if texts == [] then p else Session(Answered(p, texts[0]), texts[1..])
  }

  /** From the starting state, however many queries are answered, no
      subject's mastery passes 100, the subjects stay the same five, the
      points stay below 5000 and the level never drops. */
  lemma {:induction false} SessionStaysBounded(p: Progress, texts: seq<string>)
    requires Capped(p.mastery) && p.xp < XPPerLevel
    ensures var q := Session(p, texts);
      Capped(q.mastery) && q.mastery.Keys == p.mastery.Keys && q.xp < XPPerLevel && q.level >= p.level
    decreases |texts|
  {
    if texts != [] {
      var next := Answered(p, texts[0]);
      assert Capped(next.mastery);
      SessionStaysBounded(next, texts[1..]);
    }
  }

  lemma InitialStateBounded()
    ensures Capped(InitialMastery) && InitialMastery.Keys == set s | s in InitialSubjects
  {
  }

  /** A speech voice; only its name matters here. */
  datatype Voice = Voice(name: string)

  /** The voices the selection prefers. */
  predicate IsPreferred(v: Voice) {
    Text.Contains(v.name, "Google US English") || Text.Contains(v.name, "en-us-x-sfg#female")
    || Text.Contains(v.name, "Samantha")
  }

  /** `state.voices.find(...)`: the first preferred voice. */
  function FirstPreferred(vs: seq<Voice>): (r: Option<nat>)
    ensures r.Some? ==> r.value < |vs| && IsPreferred(vs[r.value])
    ensures forall j | 0 <= j < |vs| && (r.None? || j < r.value) :: !IsPreferred(vs[j])
    decreases |vs|
  {
    if vs == [] then None
    else if IsPreferred(vs[0]) then Some(0)
    else
      var r := FirstPreferred(vs[1..]);
      assert forall j | 1 <= j < |vs| :: vs[j] == vs[1..][j - 1];
      match r
      case None => None
      case Some(i) => Some(i + 1)
  }

  /** The voice `loadVoices` selects: the first preferred voice, else the
      first voice, else none. */
  function SelectVoice(vs: seq<Voice>): (r: Option<Voice>)
    ensures r.None? <==> vs == []
    ensures r.Some? ==> r.value in vs
    ensures (exists i | 0 <= i < |vs| :: IsPreferred(vs[i])) ==>
      r.Some? && IsPreferred(r.value)
      && exists i | 0 <= i < |vs| :: vs[i] == r.value && forall j | 0 <= j < i :: !IsPreferred(vs[j])
    ensures vs != [] && (forall i | 0 <= i < |vs| :: !IsPreferred(vs[i])) ==> r == Some(vs[0])
  {
    match FirstPreferred(vs)
    case Some(i) => Some(vs[i])
    case None => if vs == [] then None else Some(vs[0])
  }

  /** The `for...in` loop of `updateMastery`: the subjects in order, each one
      the text mentions raised; reports whether any was. */
  method RaiseMentioned(subjects: seq<string>, m0: map<string, int>, text: string)
    returns (m: map<string, int>, updated: bool)
    requires forall i, j | 0 <= i < j < |subjects| :: subjects[i] != subjects[j]
    requires m0.Keys == set s | s in subjects
    ensures m == Bump(m0, text)
    ensures updated <==> exists k | k in m0 :: Mentions(text, k)
  {
    m := m0;
    ghost var target := Bump(m0, text);
    updated := false;
    var i := 0;
    while i < |subjects|
      invariant 0 <= i <= |subjects|
      invariant m.Keys == m0.Keys
      invariant forall j | 0 <= j < i :: m[subjects[j]] == target[subjects[j]]
      invariant forall j | i <= j < |subjects| :: m[subjects[j]] == m0[subjects[j]]
      invariant updated <==> exists j | 0 <= j < i :: Mentions(text, subjects[j])
    {
      var key := subjects[i];
      assert m[key] == m0[key];
      if Mentions(text, key) {
        m := m[key := Min(MasteryCap, m[key] + MasteryStep)];
        updated := true;
      }
      assert m[key] == target[key];
      assert forall j | 0 <= j < |subjects| && j != i :: subjects[j] != key;
      i := i + 1;
    }
    forall k | k in m0
      ensures m[k] == target[k]
    {
      assert k in set s | s in subjects;
      var j :| 0 <= j < |subjects| && subjects[j] == k;
    }
  }

  /** How `processQuery` ends. */
  datatype QueryOutcome =
    | Ignored        // empty input, or the model is not loaded
    | Replied(response: string)
    | Interference   // the model call threw

  /** The module-level `state` of www/app.js, with the chart's data. */
  class TutorState {
    const subjects: seq<string>
    var mastery: map<string, int>
    var studentLevel: int
    var studentXP: int
    var voices: seq<Voice>
    var selectedVoice: Option<Voice>
    var teacherLoaded: bool
    const hasChart: bool
    var chartData: seq<int>

    ghost predicate Valid()
      reads this
    {
      && (forall i, j | 0 <= i < j < |subjects| :: subjects[i] != subjects[j])
      && mastery.Keys == (set s | s in subjects)
      && Capped(mastery)
      && studentXP < XPPerLevel
    }

    /** The chart's data: `Object.values(state.mastery)`, in key order. */
    function Values(): seq<int>
      requires Valid()
      reads this
    {
      var m, ks := mastery, subjects;
      assert forall i | 0 <= i < |ks| :: ks[i] in m;
      seq(|ks|, i requires 0 <= i < |ks| => m[ks[i]])
    }

    /** The state on page load; whether the page has a mastery chart is given. */
    constructor (hasChart: bool)
      ensures Valid()
      ensures subjects == InitialSubjects && mastery == InitialMastery
      ensures studentLevel == 1 && studentXP == 4200
      ensures voices == [] && selectedVoice == None && !teacherLoaded
      ensures this.hasChart == hasChart && chartData == Values()
    {
      subjects := InitialSubjects;
      mastery := InitialMastery;
      studentLevel := 1;
      studentXP := 4200;
      voices := [];
      selectedVoice := None;
      teacherLoaded := false;
      this.hasChart := hasChart;
      new;
      chartData := Values();
    }

    /** `updateMastery(text)`: with no chart nothing changes; otherwise each
        subject, in turn, gains 5 (up to 100) when the text mentions it, and
        the chart is redrawn when any did. */
    method UpdateMastery(text: string)
      requires Valid()
      modifies this
      ensures Valid()
      ensures !hasChart ==> mastery == old(mastery) && chartData == old(chartData)
      ensures hasChart ==> mastery == Bump(old(mastery), text)
      ensures hasChart && (exists k | k in old(mastery) :: Mentions(text, k)) ==> chartData == Values()
      ensures (forall k | k in old(mastery) :: !Mentions(text, k)) ==> chartData == old(chartData)
      ensures studentLevel == old(studentLevel) && studentXP == old(studentXP)
      ensures voices == old(voices) && selectedVoice == old(selectedVoice) && teacherLoaded == old(teacherLoaded)
    {
      if !hasChart {
        return;
      }
      var m, updated := RaiseMentioned(subjects, mastery, text);
      mastery := m;
      if updated {
        chartData := Values();
      }
    }

    /** `grantXP(amount)`. */
    method GrantXPTo(amount: int)
      modifies this
      ensures (studentLevel, studentXP) == GrantXP(old(studentLevel), old(studentXP), amount)
      ensures mastery == old(mastery) && chartData == old(chartData)
      ensures voices == old(voices) && selectedVoice == old(selectedVoice) && teacherLoaded == old(teacherLoaded)
    {
      studentXP := studentXP + amount;
      if studentXP >= XPPerLevel {
        studentLevel := studentLevel + 1;
        studentXP := 0;
      }
    }

    /** `loadVoices()`, given the voices the synthesiser offers. */
    method LoadVoices(available: seq<Voice>)
      modifies this
      ensures voices == available && selectedVoice == SelectVoice(available)
      ensures mastery == old(mastery) && chartData == old(chartData)
      ensures studentLevel == old(studentLevel) && studentXP == old(studentXP)
      ensures teacherLoaded == old(teacherLoaded)
    {
      voices := available;
      selectedVoice := SelectVoice(voices);
    }

    /** `processQuery()` on the input field's text; `reply` is what the model
        answers (None when the call throws). An empty trimmed input or an
        unloaded model changes nothing; an answer raises mastery and grants 15
        points. */
    method ProcessQuery(input: string, reply: Option<string>) returns (r: QueryOutcome)
      requires Valid()
      modifies this
      ensures Valid()
      ensures Text.Trim(input) == "" || !old(teacherLoaded) ==>
        r == Ignored && mastery == old(mastery) && studentLevel == old(studentLevel)
        && studentXP == old(studentXP) && chartData == old(chartData)
      ensures Text.Trim(input) != "" && old(teacherLoaded) && reply.None? ==>
        r == Interference && mastery == old(mastery) && studentLevel == old(studentLevel)
        && studentXP == old(studentXP) && chartData == old(chartData)
      ensures Text.Trim(input) != "" && old(teacherLoaded) && reply.Some? ==>
        && r == Replied(reply.value)
        && (hasChart ==> mastery == Bump(old(mastery), Text.Trim(input)))
        && (!hasChart ==> mastery == old(mastery))
        && (studentLevel, studentXP) == GrantXP(old(studentLevel), old(studentXP), XPPerQuery)
      ensures voices == old(voices) && selectedVoice == old(selectedVoice) && teacherLoaded == old(teacherLoaded)
    {
      var text := Text.Trim(input);
      if text == "" || !teacherLoaded {
        return Ignored;
      }
      if reply.None? {
        return Interference;
      }
      UpdateMastery(text);
      GrantXPTo(XPPerQuery);
      r := Replied(reply.value);
    }
  }
}
