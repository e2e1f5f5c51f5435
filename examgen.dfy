/** `AIGenerator.generateFullExam` (app.js): an exam built from the lesson
    notes in the vault. Their contents are joined into one context; the
    context's long sentences become objective questions, fill-in questions
    and theory prompts. */
module ExamGen {
  import opened Wrappers
  import Filters
  import Text
  import Numerals
  import opened Persistence

  const MinContext: nat := 200
  const MinSentence: nat := 40
  const MaxObjectives: nat := 10
  const MaxFillIns: nat := 5
  const MaxTheory: nat := 2
  const Blank: string := "_______"
  const Distractors: seq<string> := ["Standard", "Process", "System"]
  const TheoryPrefix: string := "In your own words, explain the following concept from your study notes: \""

  /** A multiple-choice question: the options, and the index of the right one. */
  datatype Objective = Objective(q: string, options: seq<string>, a: int)
  /** A question whose answer is a word to type. */
  datatype FillIn = FillIn(q: string, a: string)
  /** An essay prompt and the words a good answer uses. */
  datatype Theory = Theory(q: string, keywords: seq<string>)
  datatype Exam = Exam(objectives: seq<Objective>, fillIn: seq<FillIn>, theory: seq<Theory>)

  datatype ExamError =
    | SubjectNotText          // a lesson note's subject is a number, which has no `toLowerCase`
    | StoreFailed(error: DbError)

  // ---------------------------------------------------------------------
  // The context

  /** Whether the filter keeps a record: a lesson note on the subject
      (compared without case), or any lesson note when the subject is
      "General". None when testing the record throws. */
  function Selects(r: Record, subject: string): Option<bool> {
    if "type" !in r.attrs || r.attrs["type"] != TextAttr("lesson_note") then Some(false)
    else if "subject" !in r.attrs then Some(subject == "General")
    else
      match r.attrs["subject"]
      case TextAttr(s) => Some(Text.ToLower(s) == Text.ToLower(subject) || subject == "General")
      case IntAttr(_) => None
  }

  /** `item.content` as `join` writes it: nothing when it is absent. */
  function Content(r: Record): string {
    if "content" !in r.attrs then ""
    else
      match r.attrs["content"]
      case TextAttr(t) => t
      case IntAttr(n) => Numerals.ToRadix(n, 10)
  }

  /** `c` is the content of a record the filter keeps. */
  predicate IsSelectedContent(records: seq<Record>, subject: string, c: string) {
    exists i | 0 <= i < |records| :: Selects(records[i], subject) == Some(true) && Content(records[i]) == c
  }

  /** The filter's test, on a record whose test does not throw. */
  function Selected(subject: string): Record -> bool {
    r => Selects(r, subject) == Some(true)
  }

  /** `vaultData.filter(...).map(item => item.content)`. */
  function Notes(records: seq<Record>, subject: string): (r: Option<seq<string>>)
    ensures r.Some? <==> forall i | 0 <= i < |records| :: Selects(records[i], subject).Some?
    ensures r.Some? ==>
      var kept := Filters.Filter(records, Selected(subject));
      |r.value| == |kept| && forall k | 0 <= k < |kept| :: r.value[k] == Content(kept[k])
    ensures r.Some? ==> |r.value| <= |records|
    ensures r.Some? ==> forall c | c in r.value :: IsSelectedContent(records, subject, c)
    ensures r.Some? ==> forall i | 0 <= i < |records| && Selects(records[i], subject) == Some(true) ::
      Content(records[i]) in r.value
    decreases |records|
  {
    if records == [] then Some([])
    else
      var rest := Notes(records[1..], subject);
      match Selects(records[0], subject)
      case None => None
      case Some(keep) =>
        match rest
        case None => None
        case Some(cs) =>
          var notes := (if keep then [Content(records[0])] else []) + cs;
          assert Selected(subject)(records[0]) == keep;
          assert Filters.Filter(records, Selected(subject))
            == (if keep then [records[0]] else []) + Filters.Filter(records[1..], Selected(subject));
          KeptContents(records, subject, notes);
          Some(notes)
  }

  /** The contents of the kept records, in order, are exactly the contents
      of the selected records. */
  lemma KeptContents(records: seq<Record>, subject: string, notes: seq<string>)
    requires var kept := Filters.Filter(records, Selected(subject));
      |notes| == |kept| && forall k | 0 <= k < |kept| :: notes[k] == Content(kept[k])
    ensures |notes| <= |records|
    ensures forall c | c in notes :: IsSelectedContent(records, subject, c)
    ensures forall i | 0 <= i < |records| && Selects(records[i], subject) == Some(true) ::
      Content(records[i]) in notes
  {
    var kept := Filters.Filter(records, Selected(subject));
    forall c | c in notes
      ensures IsSelectedContent(records, subject, c)
    {
      var k :| 0 <= k < |notes| && notes[k] == c;
      assert kept[k] in kept;
      var i :| 0 <= i < |records| && records[i] == kept[k];
      assert Selected(subject)(records[i]);
    }
    forall i | 0 <= i < |records| && Selects(records[i], subject) == Some(true)
      ensures Content(records[i]) in notes
    {
      assert Selected(subject)(records[i]);
      assert records[i] in kept;
      var k :| 0 <= k < |kept| && kept[k] == records[i];
      assert notes[k] == Content(records[i]);
    }
  }

  /** The context: the selected notes' contents joined with spaces. */
  function Context(records: seq<Record>, subject: string): Result<string, ExamError> {
    match Notes(records, subject)
    case None => Failure(SubjectNotText)
    case Some(cs) => Success(Text.Join(cs, " "))
  }

  // ---------------------------------------------------------------------
  // Questions

  /** `s.trim().split(" ")`. */
  function Words(s: string): (ws: seq<string>)
    ensures |ws| >= 1
  {
    Text.Split(Text.Trim(s), {' '})
  }

  /** Every word of a sentence occurs in the sentence. */
  lemma WordOccurs(s: string, k: nat)
    requires k < |Words(s)|
    ensures Text.Contains(s, Words(s)[k])
  {
    var t := Text.Trim(s);
    Text.SplitPiecesOccur(t, {' '});
    Text.ContainsTransitive(s, t, Words(s)[k]);
  }

  /** The word an objective question blanks: `words[Math.floor(words.length / 2)]`. */
  function Middle(s: string): string {
    var ws := Words(s);
    ws[|ws| / 2]
  }

  /** One step of a shuffle: the exchange of two of the four option positions. */
  type Swap = p: (nat, nat) | p.0 < 4 && p.1 < 4 witness (0, 0)

  /** The options after a sequence of exchanges: the order `sort` with a
      random comparator leaves them in, which the model takes as a parameter. */
  function Permute(xs: seq<string>, swaps: seq<Swap>): (r: seq<string>)
    requires |xs| == 4
    ensures |r| == 4 && multiset(r) == multiset(xs)
    decreases |swaps|
  {
    if swaps == [] then xs
    else
      var (i, j) := swaps[0];
      var ys := xs[i := xs[j]][j := xs[i]];
      assert multiset(ys) == multiset(xs);
      Permute(ys, swaps[1..])
  }

  /** `Array.prototype.indexOf`: the first index holding `x`, or -1. */
  function FirstIndex(xs: seq<string>, x: string): (r: int)
    ensures -1 <= r < |xs|
    ensures r >= 0 ==> xs[r] == x
    ensures forall j | 0 <= j < |xs| && (r == -1 || j < r) :: xs[j] != x
    decreases |xs|
  {
    if xs == [] then -1
    else if xs[0] == x then 0
    else
      var k := FirstIndex(xs[1..], x);
      assert forall j | 1 <= j < |xs| :: xs[j] == xs[1..][j - 1];
      if k == -1 then -1 else k + 1
  }

  /** An objective question on sentence `s`: the middle word is blanked, the
      options are that word and the three distractors in some order, and the
      answer is the first position holding the word. */
  function MakeObjective(s: string, swaps: seq<Swap>): (o: Objective)
    ensures multiset(o.options) == multiset([Middle(s)] + Distractors)
    ensures 0 <= o.a < |o.options| && o.options[o.a] == Middle(s)
  {
    var target := Middle(s);
    var options := Permute([target] + Distractors, swaps);
    assert target in multiset(options);
    Objective(Text.ReplaceFirst(s, target, Blank), options, FirstIndex(options, target))
  }

  /** `ws[i]` is the first word of `ws` longer than six characters. */
  predicate FirstLongAt(ws: seq<string>, i: int) {
    0 <= i < |ws| && |ws[i]| > 6 && forall j | 0 <= j < i :: |ws[j]| <= 6
  }

  /** `words.find(w => w.length > 6)`. */
  function FirstLong(ws: seq<string>): (r: Option<string>)
    ensures r.Some? ==> r.value in ws && |r.value| > 6
    ensures r.Some? ==> exists i :: FirstLongAt(ws, i) && ws[i] == r.value
    ensures r.None? ==> forall w | w in ws :: |w| <= 6
    decreases |ws|
  {
    if ws == [] then None
    else if |ws[0]| > 6 then Some(ws[0])
    else
      var r := FirstLong(ws[1..]);
      assert forall i | FirstLongAt(ws[1..], i) :: FirstLongAt(ws, i + 1);
      r
  }

  /** The word a fill-in question blanks: the first longer than six
      characters, else the first word. */
  function FillTarget(s: string): (t: string)
    ensures t in Words(s)
    ensures |t| <= 6 ==> t == Words(s)[0] && forall w | w in Words(s) :: |w| <= 6
    ensures |t| > 6 ==> exists i :: FirstLongAt(Words(s), i) && Words(s)[i] == t
  {
    var ws := Words(s);
    match FirstLong(ws)
    case None => ws[0]
    case Some(w) => w
  }

  /** A fill-in question on `s`: the target blanked; the answer is the target
      lower-cased and trimmed. */
  function MakeFillIn(s: string): (f: FillIn)
    ensures f.a == Text.Trim(Text.ToLower(FillTarget(s)))
    ensures forall i | 0 <= i < |f.a| :: !('A' <= f.a[i] <= 'Z')
  {
    var t := FillTarget(s);
    var a := Text.Trim(Text.ToLower(t));
    Text.LowerPiece(t, a);
    FillIn(Text.ReplaceFirst(s, t, Blank), a)
  }

  /** The test `w => w.length > 5`. */
  predicate IsKeyword(w: string) {
    |w| > 5
  }

  /** `filter(w => w.length > 5)`. */
  function LongWords(ws: seq<string>): (r: seq<string>)
    ensures forall w :: w in r <==> w in ws && |w| > 5
    ensures r == Filters.Filter(ws, IsKeyword)
    decreases |ws|
  {
    if ws == [] then [] else (if |ws[0]| > 5 then [ws[0]] else []) + LongWords(ws[1..])
  }

  /** A theory prompt on `s`: the trimmed sentence quoted; the keywords are the
      words of the untrimmed sentence longer than five characters. */
  function MakeTheory(s: string): (t: Theory)
    ensures t.q == TheoryPrefix + Text.Trim(s) + "\""
    ensures forall w | w in t.keywords :: |w| > 5 && w in Text.Split(s, {' '})
    ensures forall w | w in Text.Split(s, {' '}) && |w| > 5 :: w in t.keywords
    ensures t.keywords == Filters.Filter(Text.Split(s, {' '}), IsKeyword)
  {
    Theory(TheoryPrefix + Text.Trim(s) + "\"", LongWords(Text.Split(s, {' '})))
  }

  /** `Array.prototype.slice(lo, hi)` with both ends clamped to the length. */
  function Slice<T>(xs: seq<T>, lo: nat, hi: nat): (r: seq<T>)
    requires lo <= hi
    ensures |r| == (if |xs| <= lo then 0 else if |xs| <= hi then |xs| - lo else hi - lo)
    ensures forall i | 0 <= i < |r| :: r[i] == xs[lo + i]
  {
    if |xs| <= lo then [] else if |xs| <= hi then xs[lo..] else xs[lo..hi]
  }

  /** The objective questions: one on each of the first ten sentences, the
      `i`-th with its options in the order `order(i)`. */
  function Objectives(ss: seq<string>, order: nat -> seq<Swap>): (r: seq<Objective>)
    ensures |r| == (if |ss| < MaxObjectives then |ss| else MaxObjectives)
    ensures forall i | 0 <= i < |r| :: i < |ss| && r[i] == MakeObjective(ss[i], order(i))
  {
    var objs := Slice(ss, 0, MaxObjectives);
    seq(|objs|, i requires 0 <= i < |objs| => MakeObjective(objs[i], order(i)))
  }

  /** The fill-in questions: one on each of the sentences 10 to 14. */
  function FillIns(ss: seq<string>): (r: seq<FillIn>)
    ensures |r| <= MaxFillIns
    ensures |ss| > MaxObjectives + MaxFillIns ==> |r| == MaxFillIns
    ensures forall i | 0 <= i < |r| :: MaxObjectives + i < |ss| && r[i] == MakeFillIn(ss[MaxObjectives + i])
  {
    var fills := Slice(ss, MaxObjectives, MaxObjectives + MaxFillIns);
    var r := seq(|fills|, i requires 0 <= i < |fills| => MakeFillIn(fills[i]));
    forall i | 0 <= i < |r|
      ensures MaxObjectives + i < |ss| && r[i] == MakeFillIn(ss[MaxObjectives + i])
    {
      assert fills[i] == ss[MaxObjectives + i];
    }
    r
  }

  /** The theory prompts: one on each of the sentences 15 and 16. */
  function TheoryPrompts(ss: seq<string>): (r: seq<Theory>)
    ensures |r| <= MaxTheory
    ensures forall i | 0 <= i < |r| ::
      MaxObjectives + MaxFillIns + i < |ss| && r[i] == MakeTheory(ss[MaxObjectives + MaxFillIns + i])
  {
    var prompts := Slice(ss, MaxObjectives + MaxFillIns, MaxObjectives + MaxFillIns + MaxTheory);
    var r := seq(|prompts|, i requires 0 <= i < |prompts| => MakeTheory(prompts[i]));
    forall i | 0 <= i < |r|
      ensures MaxObjectives + MaxFillIns + i < |ss| && r[i] == MakeTheory(ss[MaxObjectives + MaxFillIns + i])
    {
      assert prompts[i] == ss[MaxObjectives + MaxFillIns + i];
    }
    r
  }

  /** The exam a context yields: none when the context is shorter than 200
      characters; otherwise objectives on the first ten long sentences,
      fill-ins on the next five and theory prompts on the two after. */
  function ExamFrom(context: string, order: nat -> seq<Swap>): (r: Option<Exam>)
    ensures r.None? <==> |context| < MinContext
    ensures r.Some? ==>
      var n := |Text.LongSentences(context, MinSentence)|;
      && |r.value.objectives| == (if n < MaxObjectives then n else MaxObjectives)
      && |r.value.fillIn| <= MaxFillIns
      && |r.value.theory| <= MaxTheory
      && (n > MaxObjectives + MaxFillIns ==> |r.value.fillIn| == MaxFillIns)
  {
    if |context| < MinContext then None
    else
      var ss := Text.LongSentences(context, MinSentence);
      Some(Exam(Objectives(ss, order), FillIns(ss), TheoryPrompts(ss)))
  }

  /** `generateFullExam(subject)` over the records `getAll('vault')` gave. */
  function FullExam(records: seq<Record>, subject: string, order: nat -> seq<Swap>): Result<Option<Exam>, ExamError> {
    match Context(records, subject)
    case Failure(e) => Failure(e)
    case Success(context) => Success(ExamFrom(context, order))
  }

  // ---------------------------------------------------------------------
  // Properties

  /** Replacing the occurrence of `t` at `i` by the blank, then filling the
      blank with `t`, gives back `s`. */
  lemma BlankAt(s: string, t: string, i: nat)
    requires Text.OccursAt(s, t, i)
    ensures var q := s[..i] + Blank + s[i + |t|..];
      i + |Blank| <= |q| && q[i..i + |Blank|] == Blank && q[..i] + t + q[i + |Blank|..] == s
  {
    var q := s[..i] + Blank + s[i + |t|..];
    assert q[..i] == s[..i];
    assert q[i..i + |Blank|] == Blank;
    assert q[i + |Blank|..] == s[i + |t|..];
    assert s[..i] + s[i..i + |t|] + s[i + |t|..] == s;
  }

  /** Filling the blank of `ReplaceFirst(s, t, Blank)` with `t` gives back `s`. */
  lemma BlankRoundTrip(s: string, t: string)
    requires Text.Contains(s, t)
    ensures Text.IndexOf(s, t).Some?
    ensures var i := Text.IndexOf(s, t).value;
      var q := Text.ReplaceFirst(s, t, Blank);
      i + |Blank| <= |q| && q[i..i + |Blank|] == Blank && q[..i] + t + q[i + |Blank|..] == s
  {
    Text.ContainsIff(s, t);
    var k :| Text.OccursAt(s, t, k);
    assert Text.IndexOf(s, t).Some?;
    BlankAt(s, t, Text.IndexOf(s, t).value);
  }

  /** Every objective question is answerable: its options are the middle word
      and the three distractors, the answer index points at the middle word,
      and putting the answer in the blank gives back the sentence. */
  lemma ObjectivesAnswerable(s: string, swaps: seq<Swap>)
    ensures var o := MakeObjective(s, swaps);
      var t := o.options[o.a];
      && multiset(o.options) == multiset([t] + Distractors)
      && Text.IndexOf(s, t).Some?
      && var i := Text.IndexOf(s, t).value;
         i + |Blank| <= |o.q| && o.q[i..i + |Blank|] == Blank && o.q[..i] + t + o.q[i + |Blank|..] == s
  {
    var o := MakeObjective(s, swaps);
    var t := Middle(s);
    WordOccurs(s, |Words(s)| / 2);
    BlankRoundTrip(s, t);
    assert o.q == Text.ReplaceFirst(s, t, Blank);
    assert o.options[o.a] == t;
  }

  /** Putting a fill-in question's target in its blank gives back the
      sentence, and the expected answer is that target lower-cased. */
  lemma FillInsAnswerable(s: string)
    ensures var f := MakeFillIn(s);
      var t := FillTarget(s);
      && Text.IndexOf(s, t).Some?
      && var i := Text.IndexOf(s, t).value;
         i + |Blank| <= |f.q| && f.q[i..i + |Blank|] == Blank && f.q[..i] + t + f.q[i + |Blank|..] == s
  {
    var ws := Words(s);
    var k :| 0 <= k < |ws| && ws[k] == FillTarget(s);
    WordOccurs(s, k);
    BlankRoundTrip(s, FillTarget(s));
  }

  /** Each question of an exam is the question made from its sentence: the
      `i`-th objective from the `i`-th long sentence, the `i`-th fill-in from
      the `(10 + i)`-th, the `i`-th theory prompt from the `(15 + i)`-th. */
  lemma ExamQuestionsFollowSentences(context: string, order: nat -> seq<Swap>)
    requires |context| >= MinContext
    ensures var e := ExamFrom(context, order).value;
      var ss := Text.LongSentences(context, MinSentence);
      && (forall i | 0 <= i < |e.objectives| ::
            i < |ss| && e.objectives[i] == MakeObjective(ss[i], order(i)))
      && (forall i | 0 <= i < |e.fillIn| ::
            MaxObjectives + i < |ss| && e.fillIn[i] == MakeFillIn(ss[MaxObjectives + i]))
      && (forall i | 0 <= i < |e.theory| ::
            MaxObjectives + MaxFillIns + i < |ss| && e.theory[i] == MakeTheory(ss[MaxObjectives + MaxFillIns + i]))
  {
    var ss := Text.LongSentences(context, MinSentence);
    assert ExamFrom(context, order).value == Exam(Objectives(ss, order), FillIns(ss), TheoryPrompts(ss));
  }

  /** Too little study material yields no exam, whatever is in the notes. */
  lemma ShortContextNoExam(records: seq<Record>, subject: string, order: nat -> seq<Swap>)
    requires Context(records, subject).Success? && |Context(records, subject).value| < MinContext
    ensures FullExam(records, subject, order) == Success(None)
  {
  }
}
