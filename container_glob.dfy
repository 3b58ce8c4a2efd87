/**
  Container-name globs of the container lifecycle commands (start, stop, delete, ...):
  `matches` turns a glob into an anchored Java regular expression by three chained
  `String.replace` calls ('.' escaped, '?' to ".?", '*' to ".*"), `matchedAvailableContainers`
  keeps the available container ids a glob matches, and `expandGlobNames` turns the command's
  arguments into an insertion-ordered set of names.
*/
module ContainerLifecycleAction {
  import opened Wrappers

  // ---------------------------------------------------------------- the regular-expression fragment

  /** The constructs of Java's regular expressions that a translated glob can contain. */
  datatype Atom = Literal(c: char) | AnyChar | OptionalChar | AnyRun

  /** Java's `.` (without DOTALL) matches any character except a line terminator. */
  predicate IsLineTerminator(c: char) {
    c == '\n' || c == '\r' || c == '\U{85}' || c == '\U{2028}' || c == '\U{2029}'
  }

  /** No character of `s` is a line terminator, so `.` can match each of them. */
  predicate DotMatchesAll(s: string) {
    forall i :: 0 <= i < |s| ==> !IsLineTerminator(s[i])
  }

  /**
    Whether the atoms match the whole of `s`, which is what `String.matches` asks: `.` matches one
    character, `.?` zero or one, `.*` any number, and a literal itself.
  */
  function RegexMatches(atoms: seq<Atom>, s: string): bool
    decreases |atoms|, |s|
  {
    if atoms == [] then s == []
    else match atoms[0]
      case Literal(c) => |s| > 0 && s[0] == c && RegexMatches(atoms[1..], s[1..])
      case AnyChar => |s| > 0 && !IsLineTerminator(s[0]) && RegexMatches(atoms[1..], s[1..])
      case OptionalChar =>
        RegexMatches(atoms[1..], s) || (|s| > 0 && !IsLineTerminator(s[0]) && RegexMatches(atoms[1..], s[1..]))
      case AnyRun =>
        RegexMatches(atoms[1..], s) || (|s| > 0 && !IsLineTerminator(s[0]) && RegexMatches(atoms, s[1..]))
  }

  /** The characters with a meaning of their own in Java's regular-expression syntax. */
  predicate IsMeta(c: char) {
    c in "\\^$.|?*+()[]{}"
  }

  /**
    Compiling the body of a regular expression; None for a construct outside the fragment
    (a character class, a group, an alternative, an escape such as `\d`, ...).
  */
  function ParseBody(re: string): Option<seq<Atom>>
    decreases |re|
  {
    if re == [] then Some([])
    else
      var (atom, width) :=
        if re[0] == '\\' then (if |re| >= 2 && IsMeta(re[1]) then (Some(Literal(re[1])), 2) else (None, 1))
        else if re[0] == '.' then
          (if |re| >= 2 && re[1] == '?' then (Some(OptionalChar), 2)
           else if |re| >= 2 && re[1] == '*' then (Some(AnyRun), 2)
           else (Some(AnyChar), 1))
        else if IsMeta(re[0]) then (None, 1)
        else (Some(Literal(re[0])), 1);
      match (atom, ParseBody(re[width..]))
      case (Some(a), Some(rest)) => Some([a] + rest)
      case _ => None
  }

  /** Compiling `^body$`. */
  function ParseRegex(re: string): Option<seq<Atom>> {
    if |re| >= 2 && re[0] == '^' && re[|re| - 1] == '$' then ParseBody(re[1..|re| - 1]) else None
  }

  // ---------------------------------------------------------------- matches

  /** `String.replace` with a one-character target: every occurrence, left to right. */
  function Replace(s: string, target: char, replacement: string): string {
    if s == [] then [] else (if s[0] == target then replacement else [s[0]]) + Replace(s[1..], target, replacement)
  }

  /** The regular expression `matches` builds from a glob. */
  function RegexSource(globPattern: string): (r: string)
    ensures r == "^" + Escaped(globPattern) + "$"
  {
    ReplaceChain(globPattern);
    "^" + Replace(Replace(Replace(globPattern, '.', "\\."), '?', ".?"), '*', ".*") + "$"
  }

  /**
    The globs whose regular expression means what the glob says: apart from '.', '?' and '*',
    no character that Java's regular expressions give a meaning (`matches` escapes only '.').
  */
  predicate PlainGlob(g: string) {
    forall i :: 0 <= i < |g| ==> g[i] == '.' || g[i] == '?' || g[i] == '*' || !IsMeta(g[i])
  }

  /** `matches`: does the anchored regular expression built from the glob match the whole name? */
  function Matches(globPattern: string, name: string): (r: bool)
    requires PlainGlob(globPattern)
    ensures r == RegexMatches(Translate(globPattern), name)
  {
    CompiledGlob(globPattern);
    var compiled := ParseRegex(RegexSource(globPattern));
    compiled.Some? && RegexMatches(compiled.value, name)
  }

  /** What one glob character compiles to. */
  function GlobAtom(c: char): Atom {
    if c == '?' then OptionalChar else if c == '*' then AnyRun else Literal(c)
  }

  /** The glob read character by character: '?' and '*' are wildcards, everything else literal. */
  function Translate(g: string): (r: seq<Atom>)
    ensures |r| == |g|
  {
    if g == [] then [] else [GlobAtom(g[0])] + Translate(g[1..])
  }

  /** What one glob character becomes after the three replacements. */
  function Piece(c: char): string {
    if c == '.' then "\\." else if c == '?' then ".?" else if c == '*' then ".*" else [c]
  }

  function Escaped(g: string): string {
    if g == [] then [] else Piece(g[0]) + Escaped(g[1..])
  }

  lemma {:induction false} ReplaceConcat(a: string, b: string, target: char, replacement: string)
    ensures Replace(a + b, target, replacement) == Replace(a, target, replacement) + Replace(b, target, replacement)
  {
    if a != [] {
      assert (a + b)[0] == a[0] && (a + b)[1..] == a[1..] + b;
      ReplaceConcat(a[1..], b, target, replacement);
    } else {
      assert a + b == b;
    }
  }

  /** Replace on a short string, unfolded. */
  lemma ReplaceShort(s: string, target: char, replacement: string)
    requires |s| <= 2
    ensures |s| == 1 ==> Replace(s, target, replacement) == (if s[0] == target then replacement else s)
    ensures |s| == 2 ==>
      Replace(s, target, replacement)
      == (if s[0] == target then replacement else [s[0]]) + (if s[1] == target then replacement else [s[1]])
  {
    if |s| > 0 {
      assert Replace(s[1..], target, replacement) == if |s| == 1 then [] else (if s[1] == target then replacement else [s[1]]);
    }
  }

  /**
    The three replacements act character by character, and their order matters: '.' is escaped
    first, so the '.' that '?' and '*' bring in stays a wildcard.
  */
  lemma {:induction false} ReplaceChain(g: string)
    ensures Replace(Replace(Replace(g, '.', "\\."), '?', ".?"), '*', ".*") == Escaped(g)
  {
    if g != [] {
      var c, rest := g[0], g[1..];
      assert g == [c] + rest;
      ReplaceConcat([c], rest, '.', "\\.");
      var r1 := Replace([c], '.', "\\.");
      ReplaceShort([c], '.', "\\.");
      ReplaceConcat(r1, Replace(rest, '.', "\\."), '?', ".?");
      var r2 := Replace(r1, '?', ".?");
      ReplaceShort(r1, '?', ".?");
      ReplaceConcat(r2, Replace(Replace(rest, '.', "\\."), '?', ".?"), '*', ".*");
      ReplaceShort(r2, '*', ".*");
      assert Replace(r2, '*', ".*") == Piece(c);
      ReplaceChain(rest);
    }
  }

  lemma {:induction false} ParseEscaped(g: string)
    requires PlainGlob(g)
    ensures ParseBody(Escaped(g)) == Some(Translate(g))
  {
    if g != [] {
      assert PlainGlob(g[1..]) by {
        forall i | 0 <= i < |g[1..]| ensures g[1..][i] == '.' || g[1..][i] == '?' || g[1..][i] == '*' || !IsMeta(g[1..][i]) {
          assert g[1..][i] == g[i + 1];
        }
      }
      ParseEscaped(g[1..]);
      ParsePiece(g[0], Escaped(g[1..]));
      assert Translate(g) == [GlobAtom(g[0])] + Translate(g[1..]);
    }
  }

  /** One escaped glob character parses back to its atom, in front of whatever follows. */
  lemma ParsePiece(c: char, rest: string)
    requires c == '.' || c == '?' || c == '*' || !IsMeta(c)
    ensures ParseBody(Piece(c) + rest) == match ParseBody(rest)
      case Some(atoms) => Some([GlobAtom(c)] + atoms)
      case None => None
  {
    var re := Piece(c) + rest;
    assert re[|Piece(c)|..] == rest;
  }

  /** For a plain glob, the regular expression `matches` builds compiles to the glob read literally. */
  lemma CompiledGlob(g: string)
    requires PlainGlob(g)
    ensures ParseRegex(RegexSource(g)) == Some(Translate(g))
  {
    ReplaceChain(g);
    ParseEscaped(g);
    var re := RegexSource(g);
    assert re[1..|re| - 1] == Escaped(g);
  }

  // ---------------------------------------------------------------- what a glob matches

  lemma {:induction false} TranslateConcat(a: string, b: string)
    ensures Translate(a + b) == Translate(a) + Translate(b)
  {
    if a != [] {
      assert (a + b)[0] == a[0] && (a + b)[1..] == a[1..] + b;
      TranslateConcat(a[1..], b);
    } else {
      assert a + b == b;
    }
  }

  lemma PlainGlobConcat(a: string, b: string)
    requires PlainGlob(a) && PlainGlob(b)
    ensures PlainGlob(a + b)
  {
    forall i | 0 <= i < |a + b|
      ensures (a + b)[i] == '.' || (a + b)[i] == '?' || (a + b)[i] == '*' || !IsMeta((a + b)[i])
    {
      if i >= |a| {
        assert (a + b)[i] == b[i - |a|];
      }
    }
  }

  /** Matching splits along a concatenation of atoms. */
  lemma {:induction false} MatchConcat(a: seq<Atom>, b: seq<Atom>, s: string, t: string)
    requires RegexMatches(a, s) && RegexMatches(b, t)
    ensures RegexMatches(a + b, s + t)
    decreases |a|, |s|
  {
    if a == [] {
      assert a + b == b && s + t == t;
    } else {
      var rest := a[1..];
      assert (a + b)[0] == a[0] && (a + b)[1..] == rest + b;
      match a[0]
      case Literal(c) =>
        MatchConcat(rest, b, s[1..], t);
        assert (s + t)[1..] == s[1..] + t;
      case AnyChar =>
        MatchConcat(rest, b, s[1..], t);
        assert (s + t)[1..] == s[1..] + t;
      case OptionalChar =>
        if RegexMatches(rest, s) {
          MatchConcat(rest, b, s, t);
        } else {
          MatchConcat(rest, b, s[1..], t);
          assert (s + t)[1..] == s[1..] + t;
        }
      case AnyRun =>
        if RegexMatches(rest, s) {
          MatchConcat(rest, b, s, t);
        } else {
          MatchConcat(a, b, s[1..], t);
          assert (s + t)[1..] == s[1..] + t;
        }
    }
  }

  /** A leading `.*` absorbs any run of characters other than line terminators. */
  lemma {:induction false} AnyRunAbsorbs(b: seq<Atom>, y: string, t: string)
    requires RegexMatches(b, t) && DotMatchesAll(y)
    ensures RegexMatches([AnyRun] + b, y + t)
    decreases |y|
  {
    var a := [AnyRun] + b;
    assert a[1..] == b;
    if y != [] {
      assert DotMatchesAll(y[1..]) by {
        forall i | 0 <= i < |y[1..]| ensures !IsLineTerminator(y[1..][i]) {
          assert y[1..][i] == y[i + 1];
        }
      }
      AnyRunAbsorbs(b, y[1..], t);
      assert (y + t)[1..] == y[1..] + t;
    } else {
      assert y + t == t;
    }
  }

  /** What `.*` alone matches: exactly the strings without a line terminator. */
  lemma {:induction false} AnyRunAlone(s: string)
    ensures RegexMatches([AnyRun], s) <==> DotMatchesAll(s)
    decreases |s|
  {
    assert [AnyRun][1..] == [];
    if s != [] {
      AnyRunAlone(s[1..]);
      assert RegexMatches([AnyRun], s)
          == (RegexMatches([], s) || (!IsLineTerminator(s[0]) && RegexMatches([AnyRun], s[1..])));
      if DotMatchesAll(s) {
        assert DotMatchesAll(s[1..]) by {
          forall i | 0 <= i < |s[1..]| ensures !IsLineTerminator(s[1..][i]) {
            assert s[1..][i] == s[i + 1];
          }
        }
      }
      if RegexMatches([AnyRun], s) {
        assert !IsLineTerminator(s[0]) && DotMatchesAll(s[1..]);
        forall i | 0 <= i < |s| ensures !IsLineTerminator(s[i]) {
          if i > 0 {
            assert s[i] == s[1..][i - 1];
          }
        }
      }
    }
  }

  /** A glob without wildcards compiles to literals, whatever dots it holds. */
  lemma {:induction false} LiteralAtomsMatch(g: string, name: string)
    requires '*' !in g && '?' !in g
    ensures RegexMatches(Translate(g), name) <==> name == g
  {
    if g != [] {
      var a := Translate(g);
      assert a[0] == Literal(g[0]) && a[1..] == Translate(g[1..]);
      LiteralAtomsMatch(g[1..], if name == [] then [] else name[1..]);
      if name != [] && name[0] == g[0] && name[1..] == g[1..] {
        assert name == [name[0]] + name[1..] && g == [g[0]] + g[1..];
      }
    }
  }

  /**
    A glob with neither '*' nor '?' matches only the identical name: the match is anchored at
    both ends and '.' is a literal dot, not "any character".
  */
  lemma LiteralGlobMatchesOnlyItself(g: string, name: string)
    requires PlainGlob(g) && '*' !in g && '?' !in g
    ensures Matches(g, name) <==> name == g
  {
    CompiledGlob(g);
    LiteralAtomsMatch(g, name);
  }

  /** Translate reads each glob character on its own. */
  lemma {:induction false} TranslateAt(g: string)
    ensures forall i :: 0 <= i < |g| ==> Translate(g)[i] == GlobAtom(g[i])
  {
    if g != [] {
      TranslateAt(g[1..]);
      forall i | 0 <= i < |g| ensures Translate(g)[i] == GlobAtom(g[i]) {
        if i > 0 {
          assert g[1..][i - 1] == g[i];
        }
      }
    }
  }

  lemma TranslateAround(p: string, c: char, q: string)
    ensures Translate(p + [c] + q) == Translate(p) + ([GlobAtom(c)] + Translate(q))
  {
    TranslateConcat(p + [c], q);
    TranslateConcat(p, [c]);
    assert Translate([c]) == [GlobAtom(c)];
  }

  lemma AnyRunBetween(a: seq<Atom>, b: seq<Atom>, x: string, y: string, z: string)
    requires RegexMatches(a, x) && RegexMatches(b, z) && DotMatchesAll(y)
    ensures RegexMatches(a + ([AnyRun] + b), x + y + z)
  {
    AnyRunAbsorbs(b, y, z);
    MatchConcat(a, [AnyRun] + b, x, y + z);
    assert x + (y + z) == x + y + z;
  }

  /** `*` between two globs matches any substring, the empty one included. */
  lemma StarMatchesAnySubstring(p: string, q: string, x: string, y: string, z: string)
    requires PlainGlob(p) && PlainGlob(q)
    requires Matches(p, x) && Matches(q, z) && DotMatchesAll(y)
    ensures PlainGlob(p + "*" + q) && Matches(p + "*" + q, x + y + z)
  {
    PlainGlobConcat(p, "*");
    PlainGlobConcat(p + "*", q);
    TranslateAround(p, '*', q);
    AnyRunBetween(Translate(p), Translate(q), x, y, z);
  }

  /** An optional character between two atom sequences takes up at most one character. */
  lemma OptionalBetween(a: seq<Atom>, b: seq<Atom>, x: string, y: string, z: string)
    requires RegexMatches(a, x) && RegexMatches(b, z) && |y| <= 1 && DotMatchesAll(y)
    ensures RegexMatches(a + ([OptionalChar] + b), x + y + z)
  {
    var ob := [OptionalChar] + b;
    assert ob[1..] == b;
    if |y| == 1 {
      assert (y + z)[0] == y[0] && (y + z)[1..] == z;
    } else {
      assert y + z == z;
    }
    assert RegexMatches(ob, y + z);
    MatchConcat(a, ob, x, y + z);
    assert x + (y + z) == x + y + z;
  }

  /** `?` inside a pattern matches zero characters or one, as in `web?`: ".?" is an optional character. */
  lemma QuestionBetween(p: string, q: string, x: string, y: string, z: string)
    requires PlainGlob(p) && PlainGlob(q)
    requires Matches(p, x) && Matches(q, z) && |y| <= 1 && DotMatchesAll(y)
    ensures PlainGlob(p + "?" + q) && Matches(p + "?" + q, x + y + z)
  {
    PlainGlobConcat(p, "?");
    PlainGlobConcat(p + "?", q);
    TranslateAround(p, '?', q);
    OptionalBetween(Translate(p), Translate(q), x, y, z);
  }

  /** `*` alone matches every name without a line terminator, the empty name included. */
  lemma StarAloneMatchesEveryName(name: string)
    ensures PlainGlob("*") && (Matches("*", name) <==> DotMatchesAll(name))
  {
    CompiledGlob("*");
    assert Translate("*") == [AnyRun];
    AnyRunAlone(name);
  }

  /**
    `?` matches zero or one character: the code emits ".?", although the method's documentation
    speaks of a single character.
  */
  lemma QuestionMatchesZeroOrOne(name: string)
    ensures PlainGlob("?")
    ensures Matches("?", name) <==> |name| <= 1 && DotMatchesAll(name)
  {
    CompiledGlob("?");
    var a := Translate("?");
    assert a == [OptionalChar] && a[1..] == [];
    assert RegexMatches(a, name)
        == (RegexMatches([], name) || (|name| > 0 && !IsLineTerminator(name[0]) && RegexMatches([], name[1..])));
    if |name| == 1 {
      assert DotMatchesAll(name) <==> !IsLineTerminator(name[0]);
    }
  }

  // ---------------------------------------------------------------- matchedAvailableContainers

  /** The available container ids a glob matches, in container-list order. */
  function MatchingIds(pattern: string, available: seq<string>): (r: seq<string>)
    requires PlainGlob(pattern)
    ensures |r| <= |available|
    ensures forall x :: x in r <==> x in available && Matches(pattern, x)
  {
    if available == [] then []
    else
      var last := available[|available| - 1];
      assert forall x :: x in available <==> x in available[..|available| - 1] || x == last;
      MatchingIds(pattern, available[..|available| - 1]) + (if Matches(pattern, last) then [last] else [])
  }

  /** Order is kept: matching a concatenated list is matching each part, one after the other. */
  lemma {:induction false} MatchingIdsConcat(pattern: string, a: seq<string>, b: seq<string>)
    requires PlainGlob(pattern)
    ensures MatchingIds(pattern, a + b) == MatchingIds(pattern, a) + MatchingIds(pattern, b)
    decreases |b|
  {
    if b == [] {
      assert a + b == a;
    } else {
      var b' := b[..|b| - 1];
      assert (a + b)[..|a + b| - 1] == a + b';
      MatchingIdsConcat(pattern, a, b');
    }
  }

  /** `matchedAvailableContainers`: scans the containers and adds each matching id to a list. */
  method MatchedAvailableContainers(pattern: string, available: seq<string>) returns (result: seq<string>)
    requires PlainGlob(pattern)
    ensures result == MatchingIds(pattern, available)
  {
    result := [];
    for i := 0 to |available|
      invariant result == MatchingIds(pattern, available[..i])
    {
      assert available[..i + 1][..i] == available[..i];
      if Matches(pattern, available[i]) {
        result := result + [available[i]];
      }
    }
    assert available[..|available|] == available;
  }

  // ---------------------------------------------------------------- expandGlobNames

  /** `name.contains("*") || name.contains("?")`. */
  function IsGlob(name: string): (r: bool)
    ensures r <==> exists i :: 0 <= i < |name| && Translate(name)[i] != Literal(name[i])
  {
    TranslateAt(name);
    '*' in name || '?' in name
  }

  /** The arguments whose wildcards the model can interpret. */
  predicate GlobsArePlain(names: seq<string>) {
    forall i :: 0 <= i < |names| ==> IsGlob(names[i]) ==> PlainGlob(names[i])
  }

  /** What one argument adds: the matching ids for a glob, the name itself otherwise. */
  function Contribution(name: string, available: seq<string>): seq<string>
    requires IsGlob(name) ==> PlainGlob(name)
  {
    if IsGlob(name) then MatchingIds(name, available) else [name]
  }

  /** Whether argument `name` brings `x` into the result. */
  predicate Contributes(name: string, x: string, available: seq<string>)
    requires IsGlob(name) ==> PlainGlob(name)
  {
    if IsGlob(name) then x in available && Matches(name, x) else x == name
  }

  /** Everything the arguments add, in argument order, duplicates included. */
  function Candidates(names: seq<string>, available: seq<string>): (r: seq<string>)
    requires GlobsArePlain(names)
    ensures forall x :: x in r <==> exists i :: 0 <= i < |names| && Contributes(names[i], x, available)
  {
    if names == [] then []
    else
      var init := names[..|names| - 1];
      var last := names[|names| - 1];
      assert GlobsArePlain(init) by {
        forall i | 0 <= i < |init| ensures IsGlob(init[i]) ==> PlainGlob(init[i]) {
          assert init[i] == names[i];
        }
      }
      var r := Candidates(init, available) + Contribution(last, available);
      assert forall x :: x in r <==> exists i :: 0 <= i < |names| && Contributes(names[i], x, available) by {
        forall x ensures x in r <==> exists i :: 0 <= i < |names| && Contributes(names[i], x, available) {
          if x in r {
            if x in Candidates(init, available) {
              var i :| 0 <= i < |init| && Contributes(init[i], x, available);
              assert names[i] == init[i];
            } else {
              assert Contributes(names[|names| - 1], x, available);
            }
          }
          if exists i :: 0 <= i < |names| && Contributes(names[i], x, available) {
            var i :| 0 <= i < |names| && Contributes(names[i], x, available);
            if i < |names| - 1 {
              assert init[i] == names[i];
            }
          }
        }
      }
      r
  }

  predicate NoDuplicates(s: seq<string>) {
    forall i, j :: 0 <= i < j < |s| ==> s[i] != s[j]
  }

  /** A LinkedHashSet filled by `add` calls: each element once, at its first insertion. */
  function Distinct(s: seq<string>): (r: seq<string>)
    ensures NoDuplicates(r)
    ensures forall x :: x in r <==> x in s
  {
    if s == [] then []
    else
      var d := Distinct(s[..|s| - 1]);
      var last := s[|s| - 1];
      assert forall x :: x in s <==> x in s[..|s| - 1] || x == last;
      if last in d then d else d + [last]
  }

  lemma DistinctSnoc(s: seq<string>, x: string)
    ensures Distinct(s + [x]) == if x in Distinct(s) then Distinct(s) else Distinct(s) + [x]
  {
    assert (s + [x])[..|s|] == s;
  }

  /** The position of the first occurrence of `x`. */
  function IndexOf(s: seq<string>, x: string): (k: nat)
    requires x in s
    ensures k < |s| && s[k] == x && x !in s[..k]
  {
    if s[0] == x then 0 else 1 + IndexOf(s[1..], x)
  }

  lemma {:induction false} IndexOfAppend(s: seq<string>, y: string, x: string)
    requires x in s + [y]
    ensures x in s ==> IndexOf(s + [y], x) == IndexOf(s, x)
    ensures x !in s ==> IndexOf(s + [y], x) == |s|
  {
    var k := IndexOf(s + [y], x);
    if x in s {
      var j := IndexOf(s, x);
      assert (s + [y])[j] == x;
      assert (s + [y])[..j] == s[..j];
    }
  }

  /** First-insertion order: two elements keep the order of their first occurrences. */
  lemma {:induction false} DistinctKeepsFirstOccurrenceOrder(s: seq<string>, x: string, y: string)
    requires x in s && y in s
    ensures IndexOf(Distinct(s), x) < IndexOf(Distinct(s), y) <==> IndexOf(s, x) < IndexOf(s, y)
  {
    var init, last := s[..|s| - 1], s[|s| - 1];
    assert s == init + [last];
    var d := Distinct(init);
    if x in init && y in init {
      DistinctKeepsFirstOccurrenceOrder(init, x, y);
      IndexOfAppend(init, last, x);
      IndexOfAppend(init, last, y);
      if last !in d {
        IndexOfAppend(d, last, x);
        IndexOfAppend(d, last, y);
      }
    } else {
      IndexOfAppend(init, last, x);
      IndexOfAppend(init, last, y);
      assert last !in d;
      IndexOfAppend(d, last, x);
      IndexOfAppend(d, last, y);
    }
  }

  /** The message `expandGlobNames` prints: which of its three texts. */
  datatype Notice = SpecifyNames | PatternMatchedNothing | ListNames

  /**
    `expandGlobNames`: no argument list gives an empty set; otherwise each argument adds its
    contribution to an insertion-ordered set, and the notice tells which message is printed.
  */
  method ExpandGlobNames(containerNames: Option<seq<string>>, available: seq<string>)
    returns (expanded: seq<string>, notice: Notice)
    requires containerNames.Some? ==> GlobsArePlain(containerNames.value)
    ensures containerNames.None? ==> expanded == [] && notice == SpecifyNames
    ensures containerNames.Some? ==> expanded == Distinct(Candidates(containerNames.value, available))
    ensures containerNames.Some? ==>
      notice == if expanded != [] then ListNames
                else if exists i :: 0 <= i < |containerNames.value| && IsGlob(containerNames.value[i])
                then PatternMatchedNothing
                else SpecifyNames
  {
    expanded := [];
    if containerNames.None? {
      return expanded, SpecifyNames;
    }
    var names := containerNames.value;
    var globUsed := false;
    for i := 0 to |names|
      invariant expanded == Distinct(Candidates(names[..i], available))
      invariant globUsed == AnyGlob(names[..i])
    {
      CandidatesStep(names, i, available);
      var added, isGlob := ExpandName(names[i], available);
      globUsed := globUsed || isGlob;
      expanded := AddAll(expanded, Candidates(names[..i], available), added);
    }
    assert names[..|names|] == names;
    notice := if expanded != [] then ListNames else if globUsed then PatternMatchedNothing else SpecifyNames;
  }

  /** Whether some argument is a glob: the `globUsed` flag. */
  function AnyGlob(names: seq<string>): (r: bool)
    ensures r <==> exists i :: 0 <= i < |names| && IsGlob(names[i])
  {
    if names == [] then false
    else
      var init := names[..|names| - 1];
      assert forall i :: 0 <= i < |init| ==> init[i] == names[i];
      AnyGlob(init) || IsGlob(names[|names| - 1])
  }

  /** One argument of the loop: a glob expands to the matching ids, any other name stands for itself. */
  method ExpandName(name: string, available: seq<string>) returns (added: seq<string>, isGlob: bool)
    requires IsGlob(name) ==> PlainGlob(name)
    ensures isGlob == IsGlob(name)
    ensures added == Contribution(name, available)
  {
    isGlob := '*' in name || '?' in name;
    if isGlob {
      added := MatchedAvailableContainers(name, available);
    } else {
      added := [name];
    }
  }

  lemma CandidatesStep(names: seq<string>, i: nat, available: seq<string>)
    requires GlobsArePlain(names) && i < |names|
    ensures GlobsArePlain(names[..i]) && GlobsArePlain(names[..i + 1])
    ensures IsGlob(names[i]) ==> PlainGlob(names[i])
    ensures Candidates(names[..i + 1], available)
         == Candidates(names[..i], available) + Contribution(names[i], available)
    ensures AnyGlob(names[..i + 1]) == (AnyGlob(names[..i]) || IsGlob(names[i]))
  {
    assert names[..i + 1][..i] == names[..i] && names[..i + 1][i] == names[i];
    assert GlobsArePlain(names[..i + 1]) && GlobsArePlain(names[..i]);
  }

  /** `LinkedHashSet.addAll`: adds each new element at the end, in the order given. */
  method AddAll(elements: seq<string>, ghost inserted: seq<string>, added: seq<string>) returns (r: seq<string>)
    requires elements == Distinct(inserted)
    ensures r == Distinct(inserted + added)
  {
    r := elements;
    assert inserted + added[..0] == inserted;
    for k := 0 to |added|
      invariant r == Distinct(inserted + added[..k])
    {
      assert inserted + added[..k + 1] == (inserted + added[..k]) + [added[k]];
      DistinctSnoc(inserted + added[..k], added[k]);
      if added[k] !in r {
        r := r + [added[k]];
      }
    }
    assert added[..|added|] == added;
  }

  /** A name given without wildcards is always in the result, whether or not such a container exists. */
  lemma LiteralNamesKept(names: seq<string>, available: seq<string>, i: nat)
    requires GlobsArePlain(names) && i < |names| && !IsGlob(names[i])
    ensures names[i] in Distinct(Candidates(names, available))
  {
    assert Contributes(names[i], names[i], available);
  }

  /** A glob only ever brings in ids of available containers that it matches. */
  lemma GlobAddsOnlyMatches(names: seq<string>, available: seq<string>, x: string)
    requires GlobsArePlain(names)
    requires x in Distinct(Candidates(names, available))
    ensures (exists i :: 0 <= i < |names| && !IsGlob(names[i]) && x == names[i])
         || (x in available && exists i :: 0 <= i < |names| && IsGlob(names[i]) && Matches(names[i], x))
  {
    var i :| 0 <= i < |names| && Contributes(names[i], x, available);
    if !IsGlob(names[i]) {
      assert x == names[i];
    }
  }

  // ---------------------------------------------------------------- applyUpdatedCredentials

  /**
    The metadata a container was created with. What `updateCredentials` does to it is not part of
    this model: the object records the pairs it was given.
  */
  class CreateContainerMetadata {
    var credentialUpdates: seq<(Option<string>, Option<string>)>

    constructor ()
      ensures credentialUpdates == []
    {
      credentialUpdates := [];
    }

    method UpdateCredentials(user: Option<string>, password: Option<string>)
      modifies this
      ensures credentialUpdates == old(credentialUpdates) + [(user, password)]
    {
      credentialUpdates := credentialUpdates + [(user, password)];
    }
  }

  /** A container; its metadata may be missing (null). */
  class Container {
    const id: string
    var metadata: CreateContainerMetadata?

    constructor (id: string, metadata: CreateContainerMetadata?)
      ensures this.id == id && this.metadata == metadata
    {
      this.id := id;
      this.metadata := metadata;
    }
  }

  /** The registry's store, reduced to the metadata objects written to it, in order. */
  class DataStore {
    var writtenMetadata: seq<CreateContainerMetadata>

    constructor ()
      ensures writtenMetadata == []
    {
      writtenMetadata := [];
    }

    method SetContainerMetadata(metadata: CreateContainerMetadata)
      modifies this
      ensures writtenMetadata == old(writtenMetadata) + [metadata]
    {
      writtenMetadata := writtenMetadata + [metadata];
    }
  }

  /** The command's options (`--user`, `--password`, absent as None) and its data store. */
  class LifecycleAction {
    const user: Option<string>
    const password: Option<string>
    const dataStore: DataStore

    constructor (user: Option<string>, password: Option<string>, dataStore: DataStore)
      ensures this.user == user && this.password == password && this.dataStore == dataStore
    {
      this.user := user;
      this.password := password;
      this.dataStore := dataStore;
    }

    /**
      `applyUpdatedCredentials`: when a user or a password was given and the container has
      metadata, hands the pair to the metadata and writes the metadata back; otherwise nothing changes.
    */
    method ApplyUpdatedCredentials(container: Container)
      modifies container.metadata, dataStore
      ensures container.metadata == old(container.metadata)
      ensures (user.Some? || password.Some?) && container.metadata != null ==>
        container.metadata.credentialUpdates == old(container.metadata.credentialUpdates) + [(user, password)] &&
        dataStore.writtenMetadata == old(dataStore.writtenMetadata) + [container.metadata]
      ensures !((user.Some? || password.Some?) && container.metadata != null) ==>
        unchanged(dataStore) && (container.metadata != null ==> unchanged(container.metadata))
    {
      if user.Some? || password.Some? {
        var metadata := container.metadata;
        if metadata != null {
          metadata.UpdateCredentials(user, password);
          dataStore.SetContainerMetadata(container.metadata);
        }
      }
    }
  }
}
