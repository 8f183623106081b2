/**
 * Literal string operations shared by the client formatter and the server:
 * substring search, left-to-right non-overlapping replacement of a literal
 * pattern (Python's `str.replace`, JavaScript's `replace` with a global
 * regex of plain characters), chains of such replacements, and joining.
 */
module StringOps {

  /** `pat` occurs in `s` starting at index `i`. */
  predicate OccursAt(s: string, pat: string, i: int) {
    0 <= i && i + |pat| <= |s| && s[i..i + |pat|] == pat
  }

  /** Python's `pat in s` / JavaScript's `s.includes(pat)`. */
  predicate Contains(s: string, pat: string) {
    exists i :: 0 <= i <= |s| - |pat| && OccursAt(s, pat, i)
  }

  /**
   * Replace every occurrence of the non-empty literal `pat` in `s` by `rep`,
   * scanning left to right and resuming after each replaced occurrence.
   */
  function Replace(s: string, pat: string, rep: string): string
    requires |pat| > 0
    decreases |s|
  {
    if |s| < |pat| then s
    else if s[..|pat|] == pat then rep + Replace(s[|pat|..], pat, rep)
    else [s[0]] + Replace(s[1..], pat, rep)
  }

  /** One `replace(pat, rep)` call of a chain. */
  datatype Rule = Rule(pat: string, rep: string)

  predicate WellFormed(rules: seq<Rule>) {
    forall i :: 0 <= i < |rules| ==> |rules[i].pat| > 0
  }

  /** `s.replace(p1, r1).replace(p2, r2)...`, in the order of `rules`. */
  function ReplaceAll(s: string, rules: seq<Rule>): string
    requires WellFormed(rules)
    decreases |rules|
  {
    if rules == [] then s
    else ReplaceAll(Replace(s, rules[0].pat, rules[0].rep), rules[1..])
  }

  /**
   * No occurrence of `q` can overlap an inserted copy of `rep`: `q` does not
   * start inside `rep` after its first character, does not contain `rep`'s
   * first character after its own first position, and `q` and `rep` differ
   * at some common position.
   */
  predicate Compatible(q: string, rep: string) {
    && |q| > 0 && |rep| > 0
    && q[0] !in rep[1..]
    && rep[0] !in q[1..]
    && exists k :: 0 <= k < |q| && k < |rep| && q[k] != rep[k]
  }

  /** Every replacement text of `rules` is compatible with every pattern of `qs`. */
  predicate RepsCompatible(qs: seq<string>, rules: seq<Rule>) {
    forall i, j :: 0 <= i < |qs| && 0 <= j < |rules| ==> Compatible(qs[i], rules[j].rep)
  }

  function Patterns(rules: seq<Rule>): (ps: seq<string>)
    ensures |ps| == |rules|
    ensures forall i :: 0 <= i < |rules| ==> ps[i] == rules[i].pat
  {
    if rules == [] then [] else [rules[0].pat] + Patterns(rules[1..])
  }

  /** Python's `sep.join(parts)` / JavaScript's `parts.join(sep)`. */
  function Join(parts: seq<string>, sep: string): string
    decreases |parts|
  {
    if |parts| == 0 then ""
    else if |parts| == 1 then parts[0]
    else parts[0] + sep + Join(parts[1..], sep)
  }

  lemma NotContainsDrop(s: string, q: string, k: nat)
    requires k <= |s| && !Contains(s, q)
    ensures !Contains(s[k..], q)
  {
    forall i | OccursAt(s[k..], q, i) ensures false {
      assert s[k..][i..i + |q|] == s[k + i..k + i + |q|];
      assert OccursAt(s, q, k + i);
    }
  }

  /** A replacement changes nothing when the pattern does not occur. */
  lemma {:induction false} ReplaceAbsent(s: string, pat: string, rep: string)
    requires |pat| > 0 && !Contains(s, pat)
    ensures Replace(s, pat, rep) == s
    decreases |s|
  {
    if |s| >= |pat| {
      assert !OccursAt(s, pat, 0);
      NotContainsDrop(s, pat, 1);
      ReplaceAbsent(s[1..], pat, rep);
    }
  }

  /**
   * The first `n` characters of a replacement result are either the first
   * `n` characters of the input, or include the first character of an
   * inserted copy of `rep`.
   */
  lemma {:induction false} ReplacePrefix(s: string, pat: string, rep: string, n: nat)
    requires |pat| > 0 && |rep| > 0
    ensures var r := Replace(s, pat, rep);
            |r| >= n ==>
              (|s| >= n && r[..n] == s[..n]) || (exists j :: 0 <= j < n && r[j] == rep[0])
    decreases |s|
  {
    var r := Replace(s, pat, rep);
    if |s| < |pat| || n == 0 {
    } else if s[..|pat|] == pat {
      assert r[0] == rep[0];
    } else {
      var t := Replace(s[1..], pat, rep);
      assert r == [s[0]] + t;
      ReplacePrefix(s[1..], pat, rep, n - 1);
      if |r| >= n {
        if |s[1..]| >= n - 1 && t[..n - 1] == s[1..][..n - 1] {
          assert r[..n] == [s[0]] + t[..n - 1];
          assert s[..n] == [s[0]] + s[1..][..n - 1];
        } else {
          var j :| 0 <= j < n - 1 && t[j] == rep[0];
          assert r[j + 1] == rep[0];
        }
      }
    }
  }

  /** An inserted copy of `rep` cannot be where an occurrence of `q` starts. */
  lemma RepBlocks(rep: string, t: string, q: string, i: int)
    requires Compatible(q, rep) && 0 <= i < |rep|
    ensures !OccursAt(rep + t, q, i)
  {
    var u := rep + t;
    if i == 0 {
      var k :| 0 <= k < |q| && k < |rep| && q[k] != rep[k];
      assert u[k] == rep[k];
    } else {
      assert u[i] == rep[1..][i - 1];
    }
  }

  /** An occurrence of `q` in `rep + t`, when `q` is compatible with `rep`, lies inside `t`. */
  lemma AfterInsertion(rep: string, t: string, q: string)
    requires Compatible(q, rep) && !Contains(t, q)
    ensures !Contains(rep + t, q)
  {
    var u := rep + t;
    forall i | 0 <= i <= |u| - |q| && OccursAt(u, q, i) ensures false {
      if i < |rep| {
        RepBlocks(rep, t, q, i);
      } else {
        assert u[i..i + |q|] == t[i - |rep|..i - |rep| + |q|];
        assert OccursAt(t, q, i - |rep|);
      }
    }
  }

  /**
   * `[c] + t`, where `t` is a replacement result of `rest`, starts with `q`
   * only if `[c] + rest` does: the prefix of `t` is either the input's own
   * text or holds the first character of an inserted `rep`, which `q` cannot
   * hold after its first position.
   */
  lemma KeptPrefix(c: char, rest: string, pat: string, rep: string, q: string)
    requires |pat| > 0 && Compatible(q, rep)
    requires !OccursAt([c] + rest, q, 0)
    ensures !OccursAt([c] + Replace(rest, pat, rep), q, 0)
  {
    var t := Replace(rest, pat, rep);
    var r := [c] + t;
    ReplacePrefix(rest, pat, rep, |q| - 1);
    if |r| >= |q| {
      if |rest| >= |q| - 1 && t[..|q| - 1] == rest[..|q| - 1] {
        assert r[..|q|] == [c] + t[..|q| - 1];
        assert ([c] + rest)[..|q|] == [c] + rest[..|q| - 1];
      } else {
        var j :| 0 <= j < |q| - 1 && t[j] == rep[0];
        assert q[1..][j] == q[j + 1];
        assert r[..|q|][j + 1] == rep[0] != q[j + 1];
      }
    }
  }

  /** An occurrence of `q` in `[c] + t` that does not start at `c` lies inside `t`. */
  lemma AfterKept(c: char, t: string, q: string)
    requires !OccursAt([c] + t, q, 0) && !Contains(t, q)
    ensures !Contains([c] + t, q)
  {
    var r := [c] + t;
    forall i | 1 <= i <= |r| - |q| ensures !OccursAt(r, q, i) {
      assert r[i..i + |q|] == t[i - 1..i - 1 + |q|];
      assert !OccursAt(t, q, i - 1);
    }
  }

  /**
   * After `Replace(s, pat, rep)`, a pattern `q` compatible with `rep` does not
   * occur, provided it is `pat` itself or did not occur in `s` already: the
   * replacement removes `pat` and introduces no compatible pattern.
   */
  lemma {:induction false} ReplaceClears(s: string, pat: string, rep: string, q: string)
    requires |pat| > 0 && Compatible(q, rep)
    requires q == pat || !Contains(s, q)
    ensures !Contains(Replace(s, pat, rep), q)
    decreases |s|
  {
    if |s| < |pat| {
      assert Replace(s, pat, rep) == s;
    } else if s[..|pat|] == pat {
      var rest := s[|pat|..];
      if q != pat { NotContainsDrop(s, q, |pat|); }
      ReplaceClears(rest, pat, rep, q);
      AfterInsertion(rep, Replace(rest, pat, rep), q);
    } else {
      var rest := s[1..];
      if q != pat { NotContainsDrop(s, q, 1); }
      ReplaceClears(rest, pat, rep, q);
      assert s == [s[0]] + rest;
      if q != pat {
        assert !OccursAt(s, q, 0);
      }
      KeptPrefix(s[0], rest, pat, rep, q);
      AfterKept(s[0], Replace(rest, pat, rep), q);
    }
  }

  /**
   * A chain of replacements whose texts are compatible with all patterns of
   * the chain (and with the patterns `done` already absent from `s`) leaves
   * none of those patterns in its result.
   */
  lemma {:induction false} ReplaceAllClearsFrom(s: string, rules: seq<Rule>, done: seq<string>)
    requires WellFormed(rules)
    requires RepsCompatible(done + Patterns(rules), rules)
    requires forall i :: 0 <= i < |done| ==> !Contains(s, done[i])
    ensures forall i :: 0 <= i < |done| ==> !Contains(ReplaceAll(s, rules), done[i])
    ensures forall i :: 0 <= i < |rules| ==> !Contains(ReplaceAll(s, rules), rules[i].pat)
    decreases |rules|
  {
    if rules != [] {
      var s1 := Replace(s, rules[0].pat, rules[0].rep);
      var done' := done + [rules[0].pat];
      FirstRuleClears(s, rules, done);
      RestCompatible(rules, done);
      ReplaceAllClearsFrom(s1, rules[1..], done');
      assert ReplaceAll(s, rules) == ReplaceAll(s1, rules[1..]);
      forall i | 0 <= i < |rules| ensures !Contains(ReplaceAll(s, rules), rules[i].pat) {
        if i == 0 {
          assert done'[|done|] == rules[0].pat;
        } else {
          assert rules[1..][i - 1] == rules[i];
        }
      }
      forall i | 0 <= i < |done| ensures !Contains(ReplaceAll(s, rules), done[i]) {
        assert done'[i] == done[i];
      }
    }
  }

  /** The first replacement of a chain clears its own pattern and keeps the cleared ones absent. */
  lemma FirstRuleClears(s: string, rules: seq<Rule>, done: seq<string>)
    requires rules != [] && WellFormed(rules)
    requires RepsCompatible(done + Patterns(rules), rules)
    requires forall i :: 0 <= i < |done| ==> !Contains(s, done[i])
    ensures var done' := done + [rules[0].pat];
            forall i :: 0 <= i < |done'| ==> !Contains(Replace(s, rules[0].pat, rules[0].rep), done'[i])
  {
    var qs := done + Patterns(rules);
    var done' := done + [rules[0].pat];
    forall i | 0 <= i < |done'| ensures !Contains(Replace(s, rules[0].pat, rules[0].rep), done'[i]) {
      assert qs[i] == done'[i];
      assert Compatible(qs[i], rules[0].rep);
      ReplaceClears(s, rules[0].pat, rules[0].rep, done'[i]);
    }
  }

  /** The rest of a compatible chain is compatible with the patterns seen so far. */
  lemma RestCompatible(rules: seq<Rule>, done: seq<string>)
    requires rules != [] && RepsCompatible(done + Patterns(rules), rules)
    ensures RepsCompatible(done + [rules[0].pat] + Patterns(rules[1..]), rules[1..])
  {
    var qs := done + Patterns(rules);
    assert Patterns(rules) == [rules[0].pat] + Patterns(rules[1..]);
    assert done + [rules[0].pat] + Patterns(rules[1..]) == qs;
    forall i, j | 0 <= i < |qs| && 0 <= j < |rules[1..]| ensures Compatible(qs[i], rules[1..][j].rep) {
      assert rules[1..][j] == rules[j + 1];
    }
  }

  /** No pattern of a mutually compatible chain survives the chain. */
  lemma ReplaceAllClears(s: string, rules: seq<Rule>)
    requires WellFormed(rules) && RepsCompatible(Patterns(rules), rules)
    ensures forall i :: 0 <= i < |rules| ==> !Contains(ReplaceAll(s, rules), rules[i].pat)
  {
    assert [] + Patterns(rules) == Patterns(rules);
    ReplaceAllClearsFrom(s, rules, []);
  }

  /** A chain changes nothing when none of its patterns occurs. */
  lemma {:induction false} ReplaceAllAbsent(s: string, rules: seq<Rule>)
    requires WellFormed(rules)
    requires forall i :: 0 <= i < |rules| ==> !Contains(s, rules[i].pat)
    ensures ReplaceAll(s, rules) == s
    decreases |rules|
  {
    if rules != [] {
      ReplaceAbsent(s, rules[0].pat, rules[0].rep);
      forall i | 0 <= i < |rules[1..]| ensures !Contains(s, rules[1..][i].pat) {
        assert rules[1..][i] == rules[i + 1];
      }
      ReplaceAllAbsent(s, rules[1..]);
    }
  }

  /** Applying a mutually compatible chain a second time changes nothing. */
  lemma ReplaceAllIdempotent(s: string, rules: seq<Rule>)
    requires WellFormed(rules) && RepsCompatible(Patterns(rules), rules)
    ensures ReplaceAll(ReplaceAll(s, rules), rules) == ReplaceAll(s, rules)
  {
    ReplaceAllClears(s, rules);
    ReplaceAllAbsent(ReplaceAll(s, rules), rules);
  }

  /** A one-character pattern occurs exactly when the character does. */
  lemma ContainsChar(s: string, c: char)
    ensures Contains(s, [c]) <==> c in s
  {
    if c in s {
      var i :| 0 <= i < |s| && s[i] == c;
      assert OccursAt(s, [c], i);
    }
    if Contains(s, [c]) {
      var i :| 0 <= i <= |s| - 1 && OccursAt(s, [c], i);
      assert s[i..i + 1] == [c];
      assert s[i] == c;
    }
  }

  /**
   * What stands in place of a match: when the first occurrence of `pat` in
   * `a + pat + b` is the one after `a`, the text before it is kept, the
   * occurrence becomes `rep`, and the scan resumes after it.
   */
  lemma {:induction false} ReplaceAtFirst(a: string, pat: string, rep: string, b: string)
    requires |pat| > 0
    requires forall i :: 0 <= i < |a| ==> !OccursAt(a + pat + b, pat, i)
    ensures Replace(a + pat + b, pat, rep) == a + rep + Replace(b, pat, rep)
    decreases |a|
  {
    var s := a + pat + b;
    if a == [] {
      assert s == pat + b;
      assert s[..|pat|] == pat;
      assert s[|pat|..] == b;
    } else {
      assert !OccursAt(s, pat, 0);
      assert s[..|pat|] != pat;
      var t := a[1..] + pat + b;
      assert s[1..] == t;
      forall i | 0 <= i < |a[1..]| ensures !OccursAt(t, pat, i) {
        assert !OccursAt(s, pat, i + 1);
        assert i + 1 + |pat| <= |s| ==> s[i + 1..i + 1 + |pat|] == t[i..i + |pat|];
      }
      ReplaceAtFirst(a[1..], pat, rep, b);
      assert [s[0]] + (a[1..] + rep + Replace(b, pat, rep)) == a + rep + Replace(b, pat, rep);
    }
  }

  /** Character-by-character rewriting: every `c` becomes `rep`, every other character stays. */
  function MapChar(s: string, c: char, rep: string): string
    decreases |s|
  {
    if s == [] then []
    else (if s[0] == c then rep else [s[0]]) + MapChar(s[1..], c, rep)
  }

  /** Replacing a one-character pattern is the character-by-character rewrite. */
  lemma {:induction false} ReplaceSingleChar(s: string, c: char, rep: string)
    ensures Replace(s, [c], rep) == MapChar(s, c, rep)
    decreases |s|
  {
    if s != [] {
      assert s[..1] == [c] <==> s[0] == c;
      ReplaceSingleChar(s[1..], c, rep);
    }
  }

  lemma {:induction false} MapCharConcat(a: string, b: string, c: char, rep: string)
    ensures MapChar(a + b, c, rep) == MapChar(a, c, rep) + MapChar(b, c, rep)
    decreases |a|
  {
    if a != [] {
      assert (a + b)[0] == a[0];
      assert (a + b)[1..] == a[1..] + b;
      MapCharConcat(a[1..], b, c, rep);
    } else {
      assert a + b == b;
    }
  }

  lemma {:induction false} MapCharAbsent(s: string, c: char, rep: string)
    requires c !in s
    ensures MapChar(s, c, rep) == s
    decreases |s|
  {
    if s != [] {
      MapCharAbsent(s[1..], c, rep);
    }
  }

  /** The one occurrence of `c` between two texts free of it is rewritten, nothing else. */
  lemma MapCharJoin(a: string, c: char, b: string, rep: string)
    requires c !in a && c !in b
    ensures MapChar(a + [c] + b, c, rep) == a + rep + b
  {
    MapCharConcat(a, [c] + b, c, rep);
    MapCharConcat([c], b, c, rep);
    MapCharAbsent(a, c, rep);
    MapCharAbsent(b, c, rep);
    assert MapChar([c], c, rep) == rep + MapChar([], c, rep);
    assert a + ([c] + b) == a + [c] + b;
  }

  /** The pattern alone is replaced whole. */
  lemma ReplaceWhole(pat: string, rep: string)
    requires |pat| > 0
    ensures Replace(pat, pat, rep) == rep
  {
    assert pat[..|pat|] == pat && pat[|pat|..] == [];
    assert Replace([], pat, rep) == [];
  }

  /** Text as long as the pattern but different from it is kept. */
  lemma ReplaceSameLength(s: string, pat: string, rep: string)
    requires |pat| > 0 && |s| == |pat| && s != pat
    ensures Replace(s, pat, rep) == s
  {
    assert s[..|pat|] == s;
    assert Replace(s[1..], pat, rep) == s[1..];
    assert [s[0]] + s[1..] == s;
  }

  /** Text shorter than the pattern is kept. */
  lemma ReplaceShort(s: string, pat: string, rep: string)
    requires |pat| > 0 && |s| < |pat|
    ensures Replace(s, pat, rep) == s
  {
  }
}
