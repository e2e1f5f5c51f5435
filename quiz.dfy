/** The quiz rules of app.js: `QuizEngine.generateQuestions`, which turns
    the reader's text into questions, and `NeuralQuiz.submitScore`, which
    awards mastery points, levels the student up and saves the profile. */
module Quiz {
  import opened Wrappers
  import Text
  import opened Persistence

  /** One generated question. */
  datatype Question = Question(id: nat, question: string, options: seq<string>, answer: nat)

  const QuotePrefix: string := "Based on your notes: \"..."
  const QuoteSuffix: string := "...\", is this a core concept?"
  const QuizOptions: seq<string> := ["Absolutely", "Inconclusive", "Irrelevant"]
  const MaxQuestions: nat := 5

  /** The sentences a quiz is built from: trimmed length above 20. */
  function Facts(text: string): seq<string> {
    Text.LongSentences(text, 20)
  }

  /** The question asked about one sentence. */
  function Ask(index: nat, sentence: string): Question {
    Question(index, QuotePrefix + Text.Trim(sentence) + QuoteSuffix, QuizOptions, 0)
  }

  /** The sentence a question quotes: what lies between the fixed prefix and suffix. */
  function Quoted(q: string): string {
    if |q| >= |QuotePrefix| + |QuoteSuffix| then q[|QuotePrefix|..|q| - |QuoteSuffix|] else ""
  }

  lemma QuotedAsk(index: nat, sentence: string)
    ensures Quoted(Ask(index, sentence).question) == Text.Trim(sentence)
  {
    var t := Text.Trim(sentence);
    var q := QuotePrefix + t + QuoteSuffix;
    assert q[|QuotePrefix|..|q| - |QuoteSuffix|] == t;
  }

  /** `generateQuestions(text)`: one question for each of the first five
      facts, numbered from 0, each quoting its trimmed fact, offering the
      three fixed options and marking "Absolutely" as the answer. */
  function Questions(text: string): (qs: seq<Question>)
    ensures |qs| == if |Facts(text)| < MaxQuestions then |Facts(text)| else MaxQuestions
    ensures forall i | 0 <= i < |qs| ::
      && qs[i].id == i
      && Quoted(qs[i].question) == Text.Trim(Facts(text)[i])
      && qs[i].options == QuizOptions
      && qs[i].answer < |qs[i].options| && qs[i].options[qs[i].answer] == "Absolutely"
  {
    var fs := Facts(text);
    var n := if |fs| < MaxQuestions then |fs| else MaxQuestions;
    var qs := seq(n, i requires 0 <= i < n => Ask(i, fs[i]));
    forall i | 0 <= i < n
      ensures qs[i].id == i && Quoted(qs[i].question) == Text.Trim(fs[i])
      ensures qs[i].options == QuizOptions && qs[i].answer == 0
    {
      assert qs[i] == Ask(i, fs[i]);
      QuotedAsk(i, fs[i]);
    }
    assert QuizOptions[0] == "Absolutely";
    qs
  }

  /** Every question quotes, trimmed, a sentence of the text that holds no
      '.', '!' or '?' and is longer than 20 characters once trimmed. */
  lemma QuestionsQuoteLongSentences(text: string)
    ensures forall q | q in Questions(text) ::
      exists p | p in Text.Split(text, Text.SentenceEnds) ::
        Quoted(q.question) == Text.Trim(p) && |Text.Trim(p)| > 20 && Text.FreeOf(p, Text.SentenceEnds)
  {
    var qs := Questions(text);
    var fs := Facts(text);
    forall q | q in qs
      ensures exists p | p in Text.Split(text, Text.SentenceEnds) ::
        Quoted(q.question) == Text.Trim(p) && |Text.Trim(p)| > 20 && Text.FreeOf(p, Text.SentenceEnds)
    {
      var i :| 0 <= i < |qs| && qs[i] == q;
      assert fs[i] in fs;
    }
  }

  /** The `QuizEngine` object: the questions of the quiz on show. */
  class QuizEngine {
    var currentQuestions: seq<Question>

    constructor ()
      ensures currentQuestions == []
    {
      currentQuestions := [];
    }

    method GenerateQuestions(text: string)
      modifies this
      ensures currentQuestions == Questions(text)
    {
      currentQuestions := Questions(text);
    }
  }

  // ---------------------------------------------------------------------
  // Mastery points and level

  const ProfileId: string := "user_profile"
  const PointsPerLevel: nat := 500

  /** The level after a submission that brings the points to `points`. */
  function LevelAfter(level: int, points: int): (r: int)
    ensures r == level || r == level + 1
    ensures r == level + 1 <==> points >= level * PointsPerLevel
  {
    if points >= level * PointsPerLevel then level + 1 else level
  }

  /** When each award is at most one level's worth, the level keeps up: the
      points stay below the next threshold. */
  lemma LevelKeepsUp(level: int, points: int, award: int)
    requires level >= 1 && points < level * PointsPerLevel && award <= PointsPerLevel
    ensures points + award < LevelAfter(level, points + award) * PointsPerLevel
  {
  }

  /** The profile record `updatePersistence` saves: the student under the
      constant id "user_profile". */
  function Profile(name: string, level: int, points: int, streak: int, personality: string): (r: Record)
    ensures r.id == Some(Str(ProfileId)) && !Falsy(r.id)
    ensures "level" in r.attrs && "masteryPoints" in r.attrs
    ensures r.attrs["level"] == IntAttr(level) && r.attrs["masteryPoints"] == IntAttr(points)
  {
    Record(Some(Str(ProfileId)), map["name" := TextAttr(name), "level" := IntAttr(level),
                                     "masteryPoints" := IntAttr(points), "streak" := IntAttr(streak),
                                     "personalityPreference" := TextAttr(personality)])
  }

  /** Saving the profile again replaces the one record under "user_profile":
      the vault never holds two profiles. */
  lemma ProfileSavedOnce(d: Db, p1: Record, p2: Record, now1: int, now2: int)
    requires p1.id == Some(Str(ProfileId)) && p2.id == Some(Str(ProfileId))
    requires SaveOp(d, "vault", p1, now1).1.Success?
    ensures var d2 := SaveOp(SaveOp(d, "vault", p1, now1).0, "vault", p2, now2).0;
      d2.stores["vault"][Str(ProfileId)] == p2
      && d2.stores["vault"].Keys == Ready(d).value.stores["vault"].Keys + {Str(ProfileId)}
  {
    SaveTwiceSecondWins(d, "vault", p1, p2, now1, now2);
  }

  /** `state.student`, with the database its profile is saved to. */
  class Student {
    const name: string
    var level: int
    var masteryPoints: int
    var streak: int
    const personality: string
    const db: NeuralDB

    /** The initial student: "Scholar", level 1, no points, a "Coach". */
    constructor (db: NeuralDB)
      ensures name == "Scholar" && level == 1 && masteryPoints == 0 && streak == 0
      ensures personality == "Coach" && this.db == db
    {
      name := "Scholar";
      level := 1;
      masteryPoints := 0;
      streak := 0;
      personality := "Coach";
      this.db := db;
    }

    function AsRecord(): Record
      reads this
    {
      Profile(name, level, masteryPoints, streak, personality)
    }

    /** `NeuralQuiz.submitScore(points)`: the points are added, the level rises
        by one when they reach `level * 500`, and the profile is saved (the
        save is not awaited, so its failure changes nothing here). */
    method SubmitScore(points: int, now: int)
      requires db.Valid()
      modifies this, db
      ensures db.Valid()
      ensures masteryPoints == old(masteryPoints) + points
      ensures level == LevelAfter(old(level), masteryPoints)
      ensures streak == old(streak)
      ensures db.State() == SaveOp(old(db.State()), "vault", AsRecord(), now).0
    {
      masteryPoints := masteryPoints + points;
      if masteryPoints >= level * PointsPerLevel {
        level := level + 1;
      }
      var _ := db.Save("vault", AsRecord(), now);
    }
  }
}
