/**
 * The part of Python's regular expressions that the documentation scripts use: literals, greedy groups of
 * non-blank or of arbitrary characters, and lazy groups of arbitrary characters, tried with backtracking.
 */
module Pattern {
  import opened Basics

  datatype Pattern =
    | End
    | Lit(text: string, rest: Pattern)
    | Greedy(word: bool, rest: Pattern)
    | Lazy(rest: Pattern)

  /** The texts of the groups, and what follows the match. */
  datatype Match = Match(groups: seq<string>, rest: string)

  datatype Found = Found(at: nat, m: Match)

  predicate Blank(c: char) {
    c == ' ' || ('\U{0009}' <= c <= '\U{000D}')
  }

  ghost predicate IsWord(s: string) {
    forall i :: 0 <= i < |s| ==> !Blank(s[i])
  }

  /** How far a greedy group could reach. */
  function Extent(word: bool, s: string): (n: nat)
    ensures n <= |s|
    ensures !word ==> n == |s|
    ensures word ==> IsWord(s[..n]) && (n < |s| ==> Blank(s[n]))
  {
    if !word then |s|
    else if s == "" || Blank(s[0]) then 0
    else
      assert s[..1 + Extent(word, s[1..])] == [s[0]] + s[1..][..Extent(word, s[1..])];
      1 + Extent(word, s[1..])
  }

  /** The first way, in Python's order of trying, in which the pattern matches the front of the text. */
  function Run(p: Pattern, s: string): Option<Match>
    decreases p, 0
  {
    match p
    case End => Some(Match([], s))
    case Lit(text, rest) => if text <= s then Run(rest, s[|text|..]) else None
    case Greedy(word, rest) => Longest(rest, s, Extent(word, s))
    case Lazy(rest) => Shortest(rest, s, 0)
  }

  function Longest(p: Pattern, s: string, n: nat): Option<Match>
    requires n <= |s|
    decreases p, n + 1
  {
    match Run(p, s[n..])
    case Some(m) => Some(Match([s[..n]] + m.groups, m.rest))
    case None => if n == 0 then None else Longest(p, s, n - 1)
  }

  function Shortest(p: Pattern, s: string, n: nat): Option<Match>
    requires n <= |s|
    decreases p, |s| - n + 1
  {
    match Run(p, s[n..])
    case Some(m) => Some(Match([s[..n]] + m.groups, m.rest))
    case None => if n == |s| then None else Shortest(p, s, n + 1)
  }

  /** re.search: the leftmost match. */
  function Search(p: Pattern, s: string): (f: Option<Found>)
    ensures f.Some? ==> f.value.at <= |s|
  {
    match Run(p, s)
    case Some(m) => Some(Found(0, m))
    case None =>
      if s == "" then None
      else
        match Search(p, s[1..])
        case Some(f) => Some(Found(f.at + 1, f.m))
        case None => None
  }

  /** A pattern that begins with some text uses up at least that text. */
  lemma {:induction false} RunShrinks(p: Pattern, s: string)
    ensures Run(p, s).Some? ==> |Run(p, s).value.rest| <= |s|
    ensures p.Lit? && Run(p, s).Some? ==> |Run(p, s).value.rest| <= |s| - |p.text|
    decreases p, 0
  {
    match p
    case End =>
    case Lit(text, rest) =>
      if text <= s {
        RunShrinks(rest, s[|text|..]);
      }
    case Greedy(word, rest) => LongestShrinks(rest, s, Extent(word, s));
    case Lazy(rest) => ShortestShrinks(rest, s, 0);
  }

  lemma {:induction false} LongestShrinks(p: Pattern, s: string, n: nat)
    requires n <= |s|
    ensures Longest(p, s, n).Some? ==> |Longest(p, s, n).value.rest| <= |s|
    decreases p, n + 1
  {
    RunShrinks(p, s[n..]);
    if n > 0 {
      LongestShrinks(p, s, n - 1);
    }
  }

  lemma {:induction false} ShortestShrinks(p: Pattern, s: string, n: nat)
    requires n <= |s|
    ensures Shortest(p, s, n).Some? ==> |Shortest(p, s, n).value.rest| <= |s|
    decreases p, |s| - n + 1
  {
    RunShrinks(p, s[n..]);
    if n < |s| {
      ShortestShrinks(p, s, n + 1);
    }
  }

  lemma {:induction false} SearchShrinks(p: Pattern, s: string)
    ensures Search(p, s).Some? ==> |Search(p, s).value.m.rest| <= |s| - Search(p, s).value.at
  {
    RunShrinks(p, s);
    if Run(p, s).None? && s != "" {
      SearchShrinks(p, s[1..]);
    }
  }

  /** re.findall: the matches from left to right without overlap; after an empty match it moves on by one. */
  function FindAll(p: Pattern, s: string): seq<seq<string>>
    decreases |s|
  {
    match Search(p, s)
    case None => []
    case Some(f) =>
      SearchShrinks(p, s);
      if |f.m.rest| < |s| - f.at then [f.m.groups] + FindAll(p, f.m.rest)
      else [f.m.groups] + (if f.m.rest == "" then [] else FindAll(p, f.m.rest[1..]))
  }

  /** The text that a pattern stands for once its groups are chosen. */
  function Filled(p: Pattern, groups: seq<string>): string
    decreases p
  {
    match p
    case End => ""
    case Lit(text, rest) => text + Filled(rest, groups)
    case Greedy(_, rest) => if groups == [] then "" else groups[0] + Filled(rest, groups[1..])
    case Lazy(rest) => if groups == [] then "" else groups[0] + Filled(rest, groups[1..])
  }

  /** One text for each group, without blanks where the pattern asks for that. */
  ghost predicate Fits(p: Pattern, groups: seq<string>)
    decreases p
  {
    match p
    case End => groups == []
    case Lit(_, rest) => Fits(rest, groups)
    case Greedy(word, rest) => groups != [] && (word ==> IsWord(groups[0])) && Fits(rest, groups[1..])
    case Lazy(rest) => groups != [] && Fits(rest, groups[1..])
  }

  /** What is found is a way to read the front of the text as the pattern with its groups filled in. */
  lemma {:induction false} RunSound(p: Pattern, s: string)
    ensures Run(p, s).Some? ==>
      var m := Run(p, s).value; Fits(p, m.groups) && s == Filled(p, m.groups) + m.rest
    decreases p, 0
  {
    match p
    case End =>
    case Lit(text, rest) =>
      if text <= s {
        RunSound(rest, s[|text|..]);
        assert s == text + s[|text|..];
      }
    case Greedy(word, rest) =>
      LongestSound(word, rest, s, Extent(word, s));
    case Lazy(rest) => ShortestSound(rest, s, 0);
  }

  lemma GroupSound(word: bool, p: Pattern, s: string, n: nat, m: Match)
    requires n <= |s| && (word ==> IsWord(s[..n]))
    requires Fits(p, m.groups) && s[n..] == Filled(p, m.groups) + m.rest
    ensures Fits(Greedy(word, p), [s[..n]] + m.groups)
    ensures s == Filled(Greedy(word, p), [s[..n]] + m.groups) + m.rest
    ensures Fits(Lazy(p), [s[..n]] + m.groups)
    ensures s == Filled(Lazy(p), [s[..n]] + m.groups) + m.rest
  {
    assert ([s[..n]] + m.groups)[1..] == m.groups;
    assert s == s[..n] + s[n..];
  }

  lemma {:induction false} LongestSound(word: bool, p: Pattern, s: string, n: nat)
    requires n <= |s| && (word ==> IsWord(s[..n]))
    ensures Longest(p, s, n).Some? ==>
      var m := Longest(p, s, n).value;
      Fits(Greedy(word, p), m.groups) && s == Filled(Greedy(word, p), m.groups) + m.rest
    decreases p, n + 1
  {
    RunSound(p, s[n..]);
    match Run(p, s[n..])
    case Some(m) => GroupSound(word, p, s, n, m);
    case None =>
      if n > 0 {
        assert s[..n - 1] == s[..n][..n - 1];
        LongestSound(word, p, s, n - 1);
      }
  }

  lemma {:induction false} ShortestSound(p: Pattern, s: string, n: nat)
    requires n <= |s|
    ensures Shortest(p, s, n).Some? ==>
      var m := Shortest(p, s, n).value;
      Fits(Lazy(p), m.groups) && s == Filled(Lazy(p), m.groups) + m.rest
    decreases p, |s| - n + 1
  {
    RunSound(p, s[n..]);
    match Run(p, s[n..])
    case Some(m) => GroupSound(false, p, s, n, m);
    case None =>
      if n < |s| {
        ShortestSound(p, s, n + 1);
      }
  }

  lemma {:induction false} ExtentReaches(w: string, s: string)
    requires IsWord(w)
    ensures Extent(true, w + s) == |w| + Extent(true, s)
  {
    if w == "" {
      assert w + s == s;
    } else {
      assert (w + s)[0] == w[0] && (w + s)[1..] == w[1..] + s;
      ExtentReaches(w[1..], s);
    }
  }

  /** If some way to read the front of the text exists, one is found. */
  lemma {:induction false} RunComplete(p: Pattern, groups: seq<string>, rest: string)
    requires Fits(p, groups)
    ensures Run(p, Filled(p, groups) + rest).Some?
    decreases p
  {
    var s := Filled(p, groups) + rest;
    match p
    case End =>
    case Lit(text, q) =>
      assert s[|text|..] == Filled(q, groups) + rest;
      RunComplete(q, groups, rest);
    case Greedy(word, q) =>
      RunComplete(q, groups[1..], rest);
      assert s[|groups[0]|..] == Filled(q, groups[1..]) + rest;
      assert s == groups[0] + (Filled(q, groups[1..]) + rest);
      if word {
        ExtentReaches(groups[0], Filled(q, groups[1..]) + rest);
      }
      LongestComplete(q, s, Extent(word, s), |groups[0]|);
    case Lazy(q) =>
      RunComplete(q, groups[1..], rest);
      assert s[|groups[0]|..] == Filled(q, groups[1..]) + rest;
      ShortestComplete(q, s, 0, |groups[0]|);
  }

  lemma {:induction false} LongestComplete(p: Pattern, s: string, n: nat, k: nat)
    requires k <= n <= |s| && Run(p, s[k..]).Some?
    ensures Longest(p, s, n).Some? && Longest(p, s, n).value.groups != []
    ensures |Longest(p, s, n).value.groups[0]| >= k
  {
    if k < n {
      LongestComplete(p, s, n - 1, k);
    }
  }

  lemma {:induction false} ShortestComplete(p: Pattern, s: string, n: nat, k: nat)
    requires n <= k <= |s| && Run(p, s[k..]).Some?
    ensures Shortest(p, s, n).Some? && Shortest(p, s, n).value.groups != []
    ensures |Shortest(p, s, n).value.groups[0]| <= k
    decreases k - n
  {
    if n < k {
      ShortestComplete(p, s, n + 1, k);
    }
  }

  /** Of all ways to read the front of the text a greedy group takes a longest and a lazy group a shortest. */
  lemma RunPriority(p: Pattern, groups: seq<string>, rest: string)
    requires Fits(p, groups) && (p.Greedy? || p.Lazy?)
    ensures var found := Run(p, Filled(p, groups) + rest);
      && found.Some? && found.value.groups != []
      && (p.Greedy? ==> |found.value.groups[0]| >= |groups[0]|)
      && (p.Lazy? ==> |found.value.groups[0]| <= |groups[0]|)
  {
    var k, left := |groups[0]|, Filled(p.rest, groups[1..]) + rest;
    var s := Filled(p, groups) + rest;
    assert s == groups[0] + left && s[k..] == left;
    RunComplete(p.rest, groups[1..], rest);
    match p
    case Greedy(word, q) =>
      if word {
        ExtentReaches(groups[0], left);
      }
      LongestComplete(q, s, Extent(word, s), k);
    case Lazy(q) => ShortestComplete(q, s, 0, k);
  }

  /** The characters that \S does not match. */
  const BLANKS: set<char> := {'\t', '\n', '\U{000B}', '\U{000C}', '\r', ' '}

  lemma BlankIff(c: char)
    ensures Blank(c) <==> c in BLANKS
  {
  }

  lemma WordIff(w: string)
    ensures IsWord(w) <==> forall i :: 0 <= i < |w| ==> w[i] !in BLANKS
  {
    forall i | 0 <= i < |w|
      ensures Blank(w[i]) <==> w[i] in BLANKS
    {
      BlankIff(w[i]);
    }
  }

  /** A group of other characters runs up to the next blank. */
  lemma WordStops(w: string, c: char, after: string)
    requires c in BLANKS && forall i :: 0 <= i < |w| ==> w[i] !in BLANKS
    ensures Run(Greedy(true, End), w + ([c] + after)) == Some(Match([w], [c] + after))
  {
    BlankIff(c);
    WordIff(w);
    hide IsWord, Blank;
    var s := [c] + after;
    ExtentReaches(w, s);
    StopsAt(c, after);
    TakesWord(w, s);
  }

  lemma StopsAt(c: char, after: string)
    requires Blank(c)
    ensures Extent(true, [c] + after) == 0
  {
  }

  lemma TakesWord(w: string, s: string)
    requires Extent(true, w + s) == |w|
    ensures Run(Greedy(true, End), w + s) == Some(Match([w], s))
  {
    assert (w + s)[..|w|] == w && (w + s)[|w|..] == s;
    LongestAt(End, w + s, |w|, |w|);
    assert [w] + [] == [w];
  }

  /** Matching a literal that is there. */
  lemma RunLit(text: string, p: Pattern, s: string)
    ensures Run(Lit(text, p), text + s) == Run(p, s)
  {
    assert (text + s)[|text|..] == s;
  }

  /** A lazy group ends where the rest of the pattern first matches. */
  lemma {:induction false} ShortestAt(p: Pattern, s: string, n: nat, k: nat)
    requires n <= k <= |s| && Run(p, s[k..]).Some?
    requires forall j :: n <= j < k ==> Run(p, s[j..]).None?
    ensures Shortest(p, s, n) == Some(Match([s[..k]] + Run(p, s[k..]).value.groups, Run(p, s[k..]).value.rest))
    decreases k - n
  {
    if n < k {
      ShortestAt(p, s, n + 1, k);
    }
  }

  /** A greedy group ends where the rest of the pattern last matches. */
  lemma {:induction false} LongestAt(p: Pattern, s: string, n: nat, k: nat)
    requires k <= n <= |s| && Run(p, s[k..]).Some?
    requires forall j :: k < j <= n ==> Run(p, s[j..]).None?
    ensures Longest(p, s, n) == Some(Match([s[..k]] + Run(p, s[k..]).value.groups, Run(p, s[k..]).value.rest))
  {
    hide Run;
    if k < n {
      var last := Run(p, s[n..]);
      assert last.None?;
      LongestAt(p, s, n - 1, k);
    }
  }

  /** The leftmost match. */
  lemma {:induction false} SearchAt(p: Pattern, s: string, k: nat)
    requires k <= |s| && Run(p, s[k..]).Some?
    requires forall j :: 0 <= j < k ==> Run(p, s[j..]).None?
    ensures Search(p, s) == Some(Found(k, Run(p, s[k..]).value))
  {
    if k > 0 {
      assert s[0..] == s;
      forall j | 0 <= j < k - 1 ensures Run(p, s[1..][j..]).None? {
        assert s[1..][j..] == s[j + 1..];
      }
      assert s[1..][k - 1..] == s[k..];
      SearchAt(p, s[1..], k - 1);
    } else {
      assert s[0..] == s;
    }
  }

  /** No match anywhere. */
  lemma {:induction false} SearchNone(p: Pattern, s: string)
    requires forall j :: 0 <= j <= |s| ==> Run(p, s[j..]).None?
    ensures Search(p, s).None?
  {
    assert s[0..] == s;
    if s != "" {
      forall j | 0 <= j <= |s| - 1 ensures Run(p, s[1..][j..]).None? {
        assert s[1..][j..] == s[j + 1..];
      }
      SearchNone(p, s[1..]);
    }
  }
}
