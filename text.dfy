/** The parts of JavaScript's String and Array API that the application's
    rules rely on: `trim`, `toLowerCase`/`toUpperCase` (on ASCII letters),
    `includes`, `indexOf`, `replace` with a string pattern, `split` on a set
    of one-character separators, and `Array.prototype.join`. A string is a
    sequence of characters. */
module Text {
  import opened Wrappers
  import Filters

  /** JavaScript's WhiteSpace and LineTerminator characters: what `trim` removes. */
  predicate IsSpace(c: char) {
    c == '\t' || c == '\n' || c == '\U{0B}' || c == '\U{0C}' || c == '\r' || c == ' '
    || c == '\U{A0}' || c == '\U{1680}' || ('\U{2000}' <= c <= '\U{200A}')
    || c == '\U{2028}' || c == '\U{2029}' || c == '\U{202F}' || c == '\U{205F}'
    || c == '\U{3000}' || c == '\U{FEFF}'
  }

  /** `trimStart`: a suffix of `s` that starts with no white space, all of what
      was cut being white space. */
  function TrimStart(s: string): (r: string)
    ensures |r| <= |s| && r == s[|s| - |r|..]
    ensures r == [] || !IsSpace(r[0])
    ensures forall i | 0 <= i < |s| - |r| :: IsSpace(s[i])
  {
    if s != [] && IsSpace(s[0]) then TrimStart(s[1..]) else s
  }

  /** `trimEnd`: a prefix of `s` that ends with no white space, all of what was
      cut being white space. */
  function TrimEnd(s: string): (r: string)
    ensures |r| <= |s| && r == s[..|r|]
    ensures r == [] || !IsSpace(r[|r| - 1])
    ensures forall i | |r| <= i < |s| :: IsSpace(s[i])
  {
    if s != [] && IsSpace(s[|s| - 1]) then TrimEnd(s[..|s| - 1]) else s
  }

  /** `String.prototype.trim`: a piece of `s`, with no white space at either end. */
  function Trim(s: string): (r: string)
    ensures |r| <= |s|
    ensures r == [] || (!IsSpace(r[0]) && !IsSpace(r[|r| - 1]))
    ensures Contains(s, r)
  {
    TrimHasNoOuterSpace(s);
    TrimIsPiece(s);
    TrimEnd(TrimStart(s))
  }

  /** Both trims together leave no white space at either end. */
  lemma TrimHasNoOuterSpace(s: string)
    ensures var r := TrimEnd(TrimStart(s));
      r == [] || (!IsSpace(r[0]) && !IsSpace(r[|r| - 1]))
  {
    var t := TrimStart(s);
    var r := TrimEnd(t);
    if r != [] {
      assert r[0] == t[0];
    }
  }

  /** Both trims together leave a piece of `s`: what follows the white space
      `trimStart` cuts. */
  lemma TrimIsPiece(s: string)
    ensures OccursAt(s, TrimEnd(TrimStart(s)), |s| - |TrimStart(s)|)
    ensures Contains(s, TrimEnd(TrimStart(s)))
  {
    var t := TrimStart(s);
    var r := TrimEnd(t);
    PrefixOfSuffixOccurs(s, t, r);
    ContainsAt(s, r, |s| - |t|);
  }

  /** A prefix of a suffix of `s` occurs in `s` where the suffix starts. */
  lemma PrefixOfSuffixOccurs(s: string, t: string, r: string)
    requires |t| <= |s| && t == s[|s| - |t|..]
    requires |r| <= |t| && r == t[..|r|]
    ensures OccursAt(s, r, |s| - |t|)
  {
    var a := |s| - |t|;
    assert s[a..][..|r|] == s[a..a + |r|];
  }

  lemma TrimStartUnpadded(s: string)
    requires s != [] && !IsSpace(s[0])
    ensures TrimStart(s) == s
  {
  }

  /** A string with no white space at either end is its own trim. */
  lemma TrimUnpadded(s: string)
    requires s != [] && !IsSpace(s[0]) && !IsSpace(s[|s| - 1])
    ensures TrimStart(s) == s && Trim(s) == s
  {
    assert TrimStart(s) == s;
    assert TrimEnd(s) == s;
  }

  /** Trimming keeps every character that is not white space, in place:
      `Trim(s)` starts where `TrimStart(s)` does. */
  lemma TrimKeepsNonSpace(s: string, i: nat)
    requires i < |s| && !IsSpace(s[i])
    ensures var a := |s| - |TrimStart(s)|;
      a <= i < a + |Trim(s)| && Trim(s)[i - a] == s[i]
  {
    var t := TrimStart(s);
    var r := TrimEnd(t);
    assert Trim(s) == r;
    CutSpaceKeepsNonSpace(s, t, r, i);
  }

  /** Cutting white space from the front of `s` (leaving `t`) and then from
      the back of `t` (leaving `r`) keeps every other character in place. */
  lemma CutSpaceKeepsNonSpace(s: string, t: string, r: string, i: nat)
    requires |t| <= |s| && t == s[|s| - |t|..] && forall j | 0 <= j < |s| - |t| :: IsSpace(s[j])
    requires |r| <= |t| && r == t[..|r|] && forall j | |r| <= j < |t| :: IsSpace(t[j])
    requires i < |s| && !IsSpace(s[i])
    ensures var a := |s| - |t|; a <= i < a + |r| && r[i - a] == s[i]
  {
    var a := |s| - |t|;
    assert a <= i;
    assert t[i - a] == s[i];
  }

  /** Lower-case of one character, on the ASCII letters. */
  function LowerChar(c: char): char {
    if 'A' <= c <= 'Z' then (c as int - 'A' as int + 'a' as int) as char else c
  }

  /** Upper-case of one character, on the ASCII letters. */
  function UpperChar(c: char): char {
    if 'a' <= c <= 'z' then (c as int - 'a' as int + 'A' as int) as char else c
  }

  /** `toLowerCase`, on the ASCII letters. */
  function ToLower(s: string): (r: string)
    ensures |r| == |s|
  {
    seq(|s|, i requires 0 <= i < |s| => LowerChar(s[i]))
  }

  /** `toUpperCase`, on the ASCII letters. */
  function ToUpper(s: string): (r: string)
    ensures |r| == |s|
  {
    seq(|s|, i requires 0 <= i < |s| => UpperChar(s[i]))
  }

  /** `toUpperCase` leaves no lower-case letter. */
  lemma ToUpperHasNoLower(s: string)
    ensures forall i | 0 <= i < |ToUpper(s)| :: !('a' <= ToUpper(s)[i] <= 'z')
  {
    var u := ToUpper(s);
    forall i | 0 <= i < |u|
      ensures !('a' <= u[i] <= 'z')
    {
      assert u[i] == UpperChar(s[i]);
    }
  }

  lemma ToLowerIdempotent(s: string)
    ensures ToLower(ToLower(s)) == ToLower(s)
    ensures forall i | 0 <= i < |s| :: !('A' <= ToLower(s)[i] <= 'Z')
  {
  }

  /** `t` occurs in `s` at index `i`. */
  predicate OccursAt(s: string, t: string, i: int) {
    0 <= i && i + |t| <= |s| && s[i..i + |t|] == t
  }

  predicate StartsWith(s: string, t: string) {
    |t| <= |s| && s[..|t|] == t
  }

  /** `String.prototype.includes`: `t` occurs somewhere in `s`. */
  predicate Contains(s: string, t: string)
    decreases |s|
  {
    StartsWith(s, t) || (s != [] && Contains(s[1..], t))
  }

  lemma {:induction false} ContainsAt(s: string, t: string, k: nat)
    requires OccursAt(s, t, k)
    ensures Contains(s, t)
    decreases k
  {
    if k > 0 {
      assert s[1..][k - 1..k - 1 + |t|] == s[k..k + |t|];
      ContainsAt(s[1..], t, k - 1);
    }
  }

  /** `includes` holds exactly when `t` occurs at some index of `s`. */
  lemma {:induction false} ContainsIff(s: string, t: string)
    ensures Contains(s, t) <==> exists i :: OccursAt(s, t, i)
    decreases |s|
  {
    if exists i :: OccursAt(s, t, i) {
      var i :| OccursAt(s, t, i);
      ContainsAt(s, t, i);
    }
    if Contains(s, t) {
      if StartsWith(s, t) {
        assert OccursAt(s, t, 0);
      } else {
        ContainsIff(s[1..], t);
        var i :| OccursAt(s[1..], t, i);
        assert s[1..][i..i + |t|] == s[i + 1..i + 1 + |t|];
        assert OccursAt(s, t, i + 1);
      }
    }
  }

  /** A piece of a lower-cased string has no upper-case ASCII letter. */
  lemma LowerPiece(s: string, t: string)
    requires Contains(ToLower(s), t)
    ensures forall i | 0 <= i < |t| :: !('A' <= t[i] <= 'Z')
  {
    var l := ToLower(s);
    ContainsIff(l, t);
    var k :| OccursAt(l, t, k);
    forall i | 0 <= i < |t|
      ensures !('A' <= t[i] <= 'Z')
    {
      assert t[i] == l[k + i];
    }
  }

  /** `String.prototype.indexOf`: the first index at which `t` occurs in `s`,
      or None (JavaScript's -1) when it does not occur. */
  function IndexOf(s: string, t: string): (r: Option<nat>)
    ensures r.Some? ==> OccursAt(s, t, r.value)
    ensures forall j | 0 <= j && (r.None? || j < r.value) :: !OccursAt(s, t, j)
    decreases |s|
  {
    if StartsWith(s, t) then Some(0)
    else if s == [] then None
    else
      var rest := IndexOf(s[1..], t);
      assert forall j | 1 <= j :: OccursAt(s, t, j) == OccursAt(s[1..], t, j - 1);
      match rest
      case None => None
      case Some(i) => Some(i + 1)
  }

  /** `String.prototype.replace` with a string pattern (and a replacement with
      no `$` patterns): the first occurrence of `t` is replaced by `rep`. */
  function ReplaceFirst(s: string, t: string, rep: string): string {
    match IndexOf(s, t)
    case None => s
    case Some(i) => s[..i] + rep + s[i + |t|..]
  }

  /** No character of `p` is one of the separators `d`. */
  predicate FreeOf(p: string, d: set<char>) {
    forall i | 0 <= i < |p| :: p[i] !in d
  }

  /** `String.prototype.split` with a separator that matches any one character
      of `d` (the regular expression `/[.!?]/`, or a one-character string):
      the pieces between separators, empty ones included. */
  function Split(s: string, d: set<char>): (parts: seq<string>)
    ensures |parts| >= 1
    ensures forall k | 0 <= k < |parts| :: FreeOf(parts[k], d)
    decreases |s|
  {
    if s == [] then [""]
    else if s[0] in d then [""] + Split(s[1..], d)
    else
      var rest := Split(s[1..], d);
      [[s[0]] + rest[0]] + rest[1..]
  }

  /** The number of characters of `s` that are separators. */
  function CountIn(s: string, d: set<char>): nat {
    if s == [] then 0 else (if s[0] in d then 1 else 0) + CountIn(s[1..], d)
  }

  /** `split` yields one piece more than there are separators. */
  lemma {:induction false} SplitCount(s: string, d: set<char>)
    ensures |Split(s, d)| == CountIn(s, d) + 1
    decreases |s|
  {
    if s != [] {
      SplitCount(s[1..], d);
    }
  }

  /** `Array.prototype.join`. */
  function Join(parts: seq<string>, sep: string): string {
    if |parts| == 0 then ""
    else if |parts| == 1 then parts[0]
    else parts[0] + sep + Join(parts[1..], sep)
  }

  lemma JoinHead(x: string, ps: seq<string>, sep: string)
    requires |ps| >= 1
    ensures Join([x + ps[0]] + ps[1..], sep) == x + Join(ps, sep)
  {
    if |ps| > 1 {
      assert ([x + ps[0]] + ps[1..])[1..] == ps[1..];
    }
  }

  /** `s` with every character of `d` replaced by `c`. */
  function Substitute(s: string, d: set<char>, c: char): string {
    seq(|s|, i requires 0 <= i < |s| => if s[i] in d then c else s[i])
  }

  /** Joining the pieces of a split with one of the separators gives back the
      string with every separator replaced by that one. As no piece holds a
      separator, this fixes every piece: the pieces are the runs of `s`
      between its separators. */
  lemma {:induction false} JoinSplitOn(s: string, d: set<char>, c: char)
    requires c in d
    ensures Join(Split(s, d), [c]) == Substitute(s, d, c)
    decreases |s|
  {
    if s != [] {
      var rest := Split(s[1..], d);
      JoinSplitOn(s[1..], d, c);
      assert Substitute(s, d, c) == [if s[0] in d then c else s[0]] + Substitute(s[1..], d, c);
      if s[0] in d {
        assert Split(s, d) == [""] + rest;
        assert ([""] + rest)[1..] == rest;
      } else {
        JoinHead([s[0]], rest, [c]);
      }
    }
  }

  /** Splitting on one character and joining with it gives back the string. */
  lemma {:induction false} JoinSplit(s: string, c: char)
    ensures Join(Split(s, {c}), [c]) == s
  {
    JoinSplitOn(s, {c}, c);
    assert Substitute(s, {c}, c) == s;
  }

  /** The separators of the regular expression `/[.!?]/`. */
  const SentenceEnds: set<char> := {'.', '!', '?'}

  /** The test `s => s.trim().length > min`. */
  function TrimmedLonger(min: nat): string -> bool {
    p => |Trim(p)| > min
  }

  /** `filter(s => s.trim().length > min)`: the pieces whose trimmed length
      exceeds `min`, in their order. */
  function LongerThan(parts: seq<string>, min: nat): (r: seq<string>)
    ensures |r| <= |parts|
    ensures forall p :: p in r <==> p in parts && |Trim(p)| > min
    ensures r == Filters.Filter(parts, TrimmedLonger(min))
    decreases |parts|
  {
    if parts == [] then []
    else (if |Trim(parts[0])| > min then [parts[0]] else []) + LongerThan(parts[1..], min)
  }

  /** The sentences of `text` (its pieces between '.', '!' and '?') whose
      trimmed length exceeds `min`: all of them, in their order. */
  function LongSentences(text: string, min: nat): (r: seq<string>)
    ensures forall p | p in r :: FreeOf(p, SentenceEnds) && |Trim(p)| > min
    ensures forall p | p in Split(text, SentenceEnds) && |Trim(p)| > min :: p in r
    ensures r == Filters.Filter(Split(text, SentenceEnds), TrimmedLonger(min))
  {
    var parts := Split(text, SentenceEnds);
    var r := LongerThan(parts, min);
    assert forall p | p in parts :: FreeOf(p, SentenceEnds);
    r
  }

  /** Occurrence is transitive: a piece of a piece of `a` is a piece of `a`. */
  lemma ContainsTransitive(a: string, b: string, c: string)
    requires Contains(a, b) && Contains(b, c)
    ensures Contains(a, c)
  {
    ContainsIff(a, b);
    ContainsIff(b, c);
    var i :| OccursAt(a, b, i);
    var j :| OccursAt(b, c, j);
    assert i + j + |c| <= |a|;
    forall k | 0 <= k < |c|
      ensures a[i + j..i + j + |c|][k] == c[k]
    {
      assert c[k] == b[j + k] == a[i + j + k];
    }
    ContainsAt(a, c, i + j);
  }

  /** The first piece `split` yields is a prefix of the string, and every
      piece occurs in it. */
  lemma {:induction false} SplitPiecesOccur(s: string, d: set<char>)
    ensures StartsWith(s, Split(s, d)[0])
    ensures forall k | 0 <= k < |Split(s, d)| :: Contains(s, Split(s, d)[k])
    decreases |s|
  {
    if s != [] {
      var rest := Split(s[1..], d);
      SplitPiecesOccur(s[1..], d);
      var parts := Split(s, d);
      forall k | 0 <= k < |parts|
        ensures Contains(s, parts[k])
      {
        if k == 0 {
          assert OccursAt(s, parts[0], 0);
          ContainsAt(s, parts[0], 0);
        } else {
          assert parts[k] == rest[if s[0] in d then k - 1 else k];
        }
      }
    }
  }
}
