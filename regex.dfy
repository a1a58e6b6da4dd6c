/** The one shape of regular expression the validators use,
    `^[class]{min,max}$`, and what Python's `re.match` does with it.  In
    Python `$` matches at the end of the string and also just before a
    newline that ends the string, so `re.match` tolerates one trailing
    `'\n'`; `re.fullmatch` does not. */
module Regex {
  import opened PyValues

  datatype CharRange = CharRange(lo: char, hi: char)

  /** A bracketed class `[...]`: character ranges, plus `\s` when `whitespace`. */
  datatype CharClass = CharClass(ranges: seq<CharRange>, whitespace: bool)

  predicate InClass(c: char, cls: CharClass) {
    || (exists i :: 0 <= i < |cls.ranges| && cls.ranges[i].lo <= c <= cls.ranges[i].hi)
    || (cls.whitespace && IsSpace(c))
  }

  /** `^[cls]{minCount,maxCount}$`; `+` is `{1,}`, written with no maximum. */
  datatype Pattern = Pattern(cls: CharClass, minCount: nat, maxCount: Option<nat>)

  predicate CountAllowed(p: Pattern, k: nat) {
    p.minCount <= k && (p.maxCount.Some? ==> k <= p.maxCount.value)
  }

  /** Where `$` can match: at the end, or before a final newline. */
  predicate EndAnchor(s: string, k: nat) {
    k == |s| || (k + 1 == |s| && s[k] == '\n')
  }

  /** The regular expression's meaning: some allowed number of class
      characters from the start, followed by a position where `$` matches. */
  ghost predicate MatchesAt(p: Pattern, s: string, k: nat) {
    && CountAllowed(p, k)
    && k <= |s|
    && (forall i :: 0 <= i < k ==> InClass(s[i], p.cls))
    && EndAnchor(s, k)
  }

  ghost predicate Matches(p: Pattern, s: string) {
    exists k: nat :: MatchesAt(p, s, k)
  }

  /** The longest prefix of `s` made of class characters. */
  function ClassRun(cls: CharClass, s: string): (n: nat)
    ensures n <= |s|
    ensures forall i :: 0 <= i < n ==> InClass(s[i], cls)
    ensures n < |s| ==> !InClass(s[n], cls)
  {
    if s == [] || !InClass(s[0], cls) then 0
    else
      var n := 1 + ClassRun(cls, s[1..]);
      assert forall i :: 1 <= i < n ==> s[i] == s[1..][i - 1];
      n
  }

  /** The engine's backtracking: try `$` after `k` repetitions, then after
      one fewer, down to `minCount`. */
  function Backtrack(p: Pattern, s: string, k: nat): (b: bool)
    requires k <= |s|
    ensures b <==> exists j: nat :: p.minCount <= j <= k && EndAnchor(s, j)
    decreases k
  {
    if k < p.minCount then false
    else if EndAnchor(s, k) then true
    else if k == 0 then false
    else Backtrack(p, s, k - 1)
  }

  /** `re.match(pattern, s) is not None`: repeat the class greedily (up to
      the maximum), then backtrack until `$` matches. */
  function ReMatch(p: Pattern, s: string): (b: bool)
    ensures b <==> Matches(p, s)
  {
    var run := ClassRun(p.cls, s);
    var greedy := if p.maxCount.Some? && p.maxCount.value < run then p.maxCount.value else run;
    var b := Backtrack(p, s, greedy);
    if b then
      var j: nat :| p.minCount <= j <= greedy && EndAnchor(s, j);
      assert MatchesAt(p, s, j);
      b
    else
      assert forall k: nat :: MatchesAt(p, s, k) ==> k <= greedy && EndAnchor(s, k);
      b
  }

  /** `re.fullmatch(pattern, s) is not None`: the whole string is an allowed
      number of class characters. */
  predicate FullMatch(p: Pattern, s: string) {
    CountAllowed(p, |s|) && forall i :: 0 <= i < |s| ==> InClass(s[i], p.cls)
  }

  /** `re.match` with `$` accepts exactly what `re.fullmatch` accepts, and
      that followed by one newline. */
  lemma ReMatchIsFullMatchOrNewline(p: Pattern, s: string)
    ensures ReMatch(p, s) <==>
      FullMatch(p, s) || (s != [] && s[|s| - 1] == '\n' && FullMatch(p, s[..|s| - 1]))
  {
    if FullMatch(p, s) {
      assert MatchesAt(p, s, |s|);
    }
    if s != [] && s[|s| - 1] == '\n' && FullMatch(p, s[..|s| - 1]) {
      assert MatchesAt(p, s, |s| - 1);
    }
    if ReMatch(p, s) {
      var k: nat :| MatchesAt(p, s, k);
      if k < |s| {
        assert forall i :: 0 <= i < k ==> s[..|s| - 1][i] == s[i];
      }
    }
  }
}
