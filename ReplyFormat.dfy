/**
 * The reply formatter of the conversation context (client/src/context/Context.jsx
 * and its backup copy): `**x**` spans become `<b>x</b>`, the text is split on
 * "\n\n" into paragraphs, blank paragraphs are dropped, the others are wrapped
 * in `<p>…</p>` with every "\n" turned into `<br/>`, and the pieces are joined.
 * Also the prompt check `!prompt || prompt.trim() === ""` both copies share.
 */
module ReplyFormat {
  import opened StringOps
  import opened Basics

  /** What the awaited backend call produced: reply text, or a thrown error. */
  datatype Outcome = Reply(text: string) | Failure

  /** ECMAScript LineTerminator: what the regex `.` does not match. */
  predicate IsLineTerminator(c: char) {
    c == '\n' || c == '\r' || c == '\U{2028}' || c == '\U{2029}'
  }

  /** ECMAScript WhiteSpace or LineTerminator: what `String.prototype.trim` removes. */
  predicate IsJsSpace(c: char) {
    || IsLineTerminator(c)
    || c == '\t' || c == '\U{000B}' || c == '\U{000C}' || c == ' '
    || c == '\U{00A0}' || c == '\U{1680}' || ('\U{2000}' <= c <= '\U{200A}')
    || c == '\U{202F}' || c == '\U{205F}' || c == '\U{3000}' || c == '\U{FEFF}'
  }

  /** `s.trim() === ""`; the empty string (the one falsy string) is included. */
  predicate IsBlank(s: string) {
    forall i :: 0 <= i < |s| ==> IsJsSpace(s[i])
  }

  // ---------------------------------------------------------------------------
  // Step 1: s.replace(/\*\*(.*?)\*\*/g, '<b>$1</b>')

  predicate IsStarPairAt(s: string, k: int) {
    0 <= k && k + 2 <= |s| && s[k] == '*' && s[k + 1] == '*'
  }

  /**
   * Where the lazy `(.*?)` started at `j` stops: the first `**` at or after
   * `j`, provided no line terminator comes before it; None if there is none.
   */
  function CloseFrom(s: string, j: nat): (r: Option<nat>)
    requires j <= |s|
    ensures r.Some? ==> j <= r.value && IsStarPairAt(s, r.value)
    decreases |s| - j
  {
    if j + 2 > |s| then None
    else if IsStarPairAt(s, j) then Some(j)
    else if IsLineTerminator(s[j]) then None
    else CloseFrom(s, j + 1)
  }

  /**
   * The `**` found is the first one, with no line terminator before it; and
   * the search fails only when every later `**` has a line terminator before it.
   */
  lemma {:induction false} CloseFromFirst(s: string, j: nat)
    requires j <= |s|
    ensures CloseFrom(s, j).Some? ==>
              forall i :: j <= i < CloseFrom(s, j).value ==> !IsLineTerminator(s[i]) && !IsStarPairAt(s, i)
    ensures CloseFrom(s, j).None? ==>
              forall k :: j <= k && IsStarPairAt(s, k) ==>
                exists i :: j <= i < k && IsLineTerminator(s[i])
    decreases |s| - j
  {
    if j + 2 > |s| {
    } else if IsStarPairAt(s, j) {
    } else if IsLineTerminator(s[j]) {
      forall k | j <= k && IsStarPairAt(s, k) ensures exists i :: j <= i < k && IsLineTerminator(s[i]) {
        assert j < k && IsLineTerminator(s[j]);
      }
    } else {
      CloseFromFirst(s, j + 1);
    }
  }

  /** The global bold replacement, trying a match at every position left to right. */
  function Bold(s: string): string
    decreases |s|
  {
    if IsStarPairAt(s, 0) && CloseFrom(s, 2).Some? then
      var k := CloseFrom(s, 2).value;
      "<b>" + s[2..k] + "</b>" + Bold(s[k + 2..])
    else if s == [] then []
    else [s[0]] + Bold(s[1..])
  }

  // ---------------------------------------------------------------------------
  // Step 2: s.split('\n\n')

  /** JavaScript's `split` on the literal separator "\n\n". */
  function Split(s: string): (r: seq<string>)
    ensures |r| >= 1 && r[0] <= s
    decreases |s|
  {
    if |s| >= 2 && s[0] == '\n' && s[1] == '\n' then [""] + Split(s[2..])
    else if s == [] then [""]
    else
      var rest := Split(s[1..]);
      [[s[0]] + rest[0]] + rest[1..]
  }

  // ---------------------------------------------------------------------------
  // Step 3: .map(paragraph => ...) and .join('')

  /** One paragraph: dropped when blank, otherwise wrapped with its newlines as `<br/>`. */
  function Render(paragraph: string): string {
    if IsBlank(paragraph) then ""
    else "<p>" + Replace(paragraph, "\n", "<br/>") + "</p>"
  }

  function RenderAll(paragraphs: seq<string>): string
    decreases |paragraphs|
  {
    if paragraphs == [] then ""
    else Render(paragraphs[0]) + RenderAll(paragraphs[1..])
  }

  /** The whole formatter applied to a successful reply. */
  function FormatReply(text: string): string {
    RenderAll(Split(Bold(text)))
  }

  // ---------------------------------------------------------------------------
  // Properties of the bold step

  /** Text without `*` passes the bold step unchanged. */
  lemma {:induction false} BoldNoStar(s: string)
    requires '*' !in s
    ensures Bold(s) == s
    decreases |s|
  {
    if s != [] {
      assert !IsStarPairAt(s, 0);
      assert '*' !in s[1..] by { assert forall i :: 0 <= i < |s| - 1 ==> s[1..][i] == s[i + 1]; }
      BoldNoStar(s[1..]);
    }
  }

  /** Characters outside "*<b/>" neither appear nor disappear in the bold step. */
  lemma {:induction false} BoldKeepsOtherChars(s: string, c: char)
    requires c !in "*<b/>"
    ensures c in Bold(s) <==> c in s
    decreases |s|
  {
    if IsStarPairAt(s, 0) && CloseFrom(s, 2).Some? {
      var k := CloseFrom(s, 2).value;
      BoldKeepsOtherChars(s[k + 2..], c);
      assert s == "**" + s[2..k] + "**" + s[k + 2..];
      assert Bold(s) == "<b>" + s[2..k] + "</b>" + Bold(s[k + 2..]);
      assert c !in "<b>" && c !in "</b>" && c !in "**";
    } else if s != [] {
      BoldKeepsOtherChars(s[1..], c);
      assert s == [s[0]] + s[1..];
    }
  }

  /** Characters outside "*<b/>" keep their number of occurrences through the bold step. */
  lemma {:induction false} BoldKeepsCount(s: string, c: char)
    requires c !in "*<b/>"
    ensures multiset(Bold(s))[c] == multiset(s)[c]
    decreases |s|
  {
    if IsStarPairAt(s, 0) && CloseFrom(s, 2).Some? {
      var k := CloseFrom(s, 2).value;
      BoldOpens(s, k);
      BoldKeepsCount(s[k + 2..], c);
      SpanCount(s, k, Bold(s[k + 2..]), c);
    } else if s != [] {
      BoldKeeps(s);
      BoldKeepsCount(s[1..], c);
      assert s == [s[0]] + s[1..];
    }
  }

  /** Replacing the `**` pair around `s[2..k]` by the tags keeps the count of any other character. */
  lemma SpanCount(s: string, k: nat, rest: string, c: char)
    requires 2 <= k && IsStarPairAt(s, 0) && IsStarPairAt(s, k)
    requires multiset(rest)[c] == multiset(s[k + 2..])[c]
    requires c !in "*<b/>"
    ensures multiset("<b>" + s[2..k] + "</b>" + rest)[c] == multiset(s)[c]
  {
    StarSpanParts(s, k);
    TagsCount(s[2..k], rest, "**", s[k + 2..], c);
  }

  lemma StarSpanParts(s: string, k: nat)
    requires 2 <= k && IsStarPairAt(s, 0) && IsStarPairAt(s, k)
    ensures s == "**" + s[2..k] + "**" + s[k + 2..]
  {
    assert s[..2] == "**" && s[k..k + 2] == "**";
    assert s == s[..2] + s[2..k] + s[k..k + 2] + s[k + 2..];
  }

  lemma TagsCount(x: string, rest: string, q: string, t: string, c: char)
    requires c !in "*<b/>" && c !in q
    requires multiset(rest)[c] == multiset(t)[c]
    ensures multiset("<b>" + x + "</b>" + rest)[c] == multiset(q + x + q + t)[c]
  {
    assert c !in "<b>" && c !in "</b>";
    assert multiset("<b>")[c] == 0 && multiset("</b>")[c] == 0 && multiset(q)[c] == 0;
  }

  /** The bold step introduces no newline and removes none. */
  lemma BoldNewlines(s: string)
    ensures multiset(Bold(s))['\n'] == multiset(s)['\n']
    ensures '\n' in Bold(s) <==> '\n' in s
  {
    BoldKeepsCount(s, '\n');
    BoldKeepsOtherChars(s, '\n');
  }

  /** The lazy search stops at the first `**` when no line terminator precedes it. */
  lemma {:induction false} CloseFromFinds(s: string, j: nat, k: nat)
    requires j <= k && IsStarPairAt(s, k)
    requires forall i :: j <= i < k ==> !IsLineTerminator(s[i]) && !IsStarPairAt(s, i)
    ensures CloseFrom(s, j) == Some(k)
    decreases k - j
  {
    if j < k {
      CloseFromFinds(s, j + 1, k);
    }
  }

  /**
   * A span `**x**` where `x` holds no line terminator, no `**` and does not
   * end in `*` is the shortest match at its position: it becomes `<b>x</b>`.
   */
  lemma BoldSpan(x: string, t: string)
    requires forall i :: 0 <= i < |x| ==> !IsLineTerminator(x[i])
    requires !Contains(x, "**") && (|x| > 0 ==> x[|x| - 1] != '*')
    ensures Bold("**" + x + "**" + t) == "<b>" + x + "</b>" + Bold(t)
  {
    var s := "**" + x + "**" + t;
    SpanCloses(x, t);
    assert IsStarPairAt(s, 0) by { assert s[..2] == "**"; }
    assert s[2..|x| + 2] == x && s[|x| + 4..] == t;
  }

  /** The lazy search started after the opening `**` of such a span stops at its closing `**`. */
  lemma SpanCloses(x: string, t: string)
    requires forall i :: 0 <= i < |x| ==> !IsLineTerminator(x[i])
    requires !Contains(x, "**") && (|x| > 0 ==> x[|x| - 1] != '*')
    ensures CloseFrom("**" + x + "**" + t, 2) == Some(|x| + 2)
  {
    var s := "**" + x + "**" + t;
    var k := |x| + 2;
    assert IsStarPairAt(s, k) by { assert s[k..k + 2] == "**"; }
    forall i | 2 <= i < k ensures !IsLineTerminator(s[i]) && !IsStarPairAt(s, i) {
      assert s[i] == x[i - 2];
      if i + 1 < k {
        assert s[i..i + 2] == x[i - 2..i];
        assert !OccursAt(x, "**", i - 2);
      }
    }
    CloseFromFinds(s, 2, k);
  }


  // ---------------------------------------------------------------------------
  // Properties of the paragraph split

  /** Joining the paragraphs with the separator gives back the text. */
  lemma {:induction false} SplitJoin(s: string)
    ensures Join(Split(s), "\n\n") == s
    decreases |s|
  {
    if |s| >= 2 && s[0] == '\n' && s[1] == '\n' {
      SplitJoin(s[2..]);
      SplitJoinSeparator(s);
    } else if s != [] {
      SplitJoin(s[1..]);
      SplitJoinChar(s);
    }
  }

  /** The step of `SplitJoin` at a separator. */
  lemma SplitJoinSeparator(s: string)
    requires |s| >= 2 && s[0] == '\n' && s[1] == '\n'
    requires Join(Split(s[2..]), "\n\n") == s[2..]
    ensures Join(Split(s), "\n\n") == s
  {
    JoinEmptyHead(Split(s[2..]), "\n\n");
    assert s == s[..2] + s[2..];
    assert s[..2] == "\n\n";
  }

  /** The step of `SplitJoin` at any other character. */
  lemma SplitJoinChar(s: string)
    requires s != [] && !(|s| >= 2 && s[0] == '\n' && s[1] == '\n')
    requires Join(Split(s[1..]), "\n\n") == s[1..]
    ensures Join(Split(s), "\n\n") == s
  {
    SplitStep(s);
    JoinConsHead(s[0], Split(s[1..]), "\n\n");
    assert s == [s[0]] + s[1..];
  }

  /** An empty first part leaves the joined text starting with the separator. */
  lemma JoinEmptyHead(parts: seq<string>, sep: string)
    requires |parts| >= 1
    ensures Join([""] + parts, sep) == sep + Join(parts, sep)
  {
    assert ([""] + parts)[1..] == parts;
  }

  /** Putting a character in front of the first part puts it in front of the joined text. */
  lemma JoinConsHead(c: char, parts: seq<string>, sep: string)
    requires |parts| >= 1
    ensures Join([[c] + parts[0]] + parts[1..], sep) == [c] + Join(parts, sep)
  {
    var ps := [[c] + parts[0]] + parts[1..];
    if |parts| > 1 {
      assert ps[1..] == parts[1..];
    }
  }

  /** No paragraph contains the separator. */
  lemma {:induction false} SplitSegmentsClean(s: string)
    ensures forall i :: 0 <= i < |Split(s)| ==> !Contains(Split(s)[i], "\n\n")
    decreases |s|
  {
    if |s| >= 2 && s[0] == '\n' && s[1] == '\n' {
      SplitSegmentsClean(s[2..]);
      assert forall i :: 1 <= i < |Split(s)| ==> Split(s)[i] == Split(s[2..])[i - 1];
    } else if s != [] {
      var rest := Split(s[1..]);
      SplitSegmentsClean(s[1..]);
      var first := [s[0]] + rest[0];
      assert !OccursAt(first, "\n\n", 0) by {
        if |first| >= 2 {
          assert rest[0] <= s[1..];
          assert rest[0][0] == s[1..][0] == s[1];
          assert first[..2] == [s[0], s[1]];
        }
      }
      AfterKept(s[0], rest[0], "\n\n");
      assert forall i :: 1 <= i < |Split(s)| ==> Split(s)[i] == rest[i];
    }
  }

  /**
   * A leading paragraph `a` without "\n\n" and not ending in "\n", followed by
   * the separator, is split off as the first paragraph.
   */
  lemma {:induction false} SplitCons(a: string, b: string)
    requires !Contains(a, "\n\n") && (|a| > 0 ==> a[|a| - 1] != '\n')
    ensures Split(a + "\n\n" + b) == [a] + Split(b)
    decreases |a|
  {
    if a == [] {
      assert a + "\n\n" + b == "\n\n" + b;
      assert ("\n\n" + b)[2..] == b;
    } else {
      ParagraphTail(a);
      SplitCons(a[1..], b);
      NoLeadingSeparator(a, b);
      SplitConsStep(a, b);
    }
  }

  /** Dropping the first character of a paragraph leaves a paragraph. */
  lemma ParagraphTail(a: string)
    requires a != [] && !Contains(a, "\n\n") && a[|a| - 1] != '\n'
    ensures !Contains(a[1..], "\n\n") && (|a| > 1 ==> a[1..][|a| - 2] != '\n')
  {
    NotContainsDrop(a, "\n\n", 1);
  }

  lemma NoLeadingSeparator(a: string, b: string)
    requires a != [] && !Contains(a, "\n\n") && a[|a| - 1] != '\n'
    ensures var s := a + "\n\n" + b; !(s[0] == '\n' && s[1] == '\n')
  {
    var s := a + "\n\n" + b;
    assert !OccursAt(a, "\n\n", 0);
    if |a| == 1 {
      assert s[1] == '\n' && s[0] == a[0] != '\n';
    } else {
      assert a[..2] == s[..2] == [s[0], s[1]];
    }
  }

  /** The inductive step of `SplitCons`: the first character joins the first paragraph. */
  lemma SplitConsStep(a: string, b: string)
    requires a != [] && var s := a + "\n\n" + b; !(s[0] == '\n' && s[1] == '\n')
    requires Split(a[1..] + "\n\n" + b) == [a[1..]] + Split(b)
    ensures Split(a + "\n\n" + b) == [a] + Split(b)
  {
    var s := a + "\n\n" + b;
    DropFirst(a, "\n\n", b);
    SplitStep(s);
    PrependToFirst(s[0], a[1..], Split(b), Split(s[1..]));
  }

  lemma DropFirst(a: string, m: string, b: string)
    requires a != []
    ensures (a + m + b)[1..] == a[1..] + m + b
    ensures [(a + m + b)[0]] + a[1..] == a
  {
  }


  /** A character that does not start the separator joins the first paragraph of the rest. */
  lemma SplitStep(s: string)
    requires s != [] && !(|s| >= 2 && s[0] == '\n' && s[1] == '\n')
    ensures Split(s) == [[s[0]] + Split(s[1..])[0]] + Split(s[1..])[1..]
  {
  }

  lemma PrependToFirst(c: char, first: string, rest: seq<string>, parts: seq<string>)
    requires parts == [first] + rest
    ensures [[c] + parts[0]] + parts[1..] == [[c] + first] + rest
  {
    assert parts[1..] == rest;
  }

  /** Text without the separator is a single paragraph. */
  lemma {:induction false} SplitNoSeparator(s: string)
    requires !Contains(s, "\n\n")
    ensures Split(s) == [s]
    decreases |s|
  {
    if s != [] {
      if |s| >= 2 {
        assert !OccursAt(s, "\n\n", 0);
        assert s[..2] == [s[0], s[1]];
      }
      NotContainsDrop(s, "\n\n", 1);
      SplitNoSeparator(s[1..]);
      assert s == [s[0]] + s[1..];
    }
  }

  // ---------------------------------------------------------------------------
  // Properties of the rendered output

  /** A paragraph renders to nothing exactly when it is blank. */
  lemma RenderEmptyIffBlank(paragraph: string)
    ensures Render(paragraph) == "" <==> IsBlank(paragraph)
  {
  }

  /** A rendered paragraph contains no newline. */
  lemma RenderNoNewline(paragraph: string)
    ensures '\n' !in Render(paragraph)
  {
    if !IsBlank(paragraph) {
      var body := Replace(paragraph, "\n", "<br/>");
      assert Compatible("\n", "<br/>") by {
        assert "\n"[0] != "<br/>"[0];
      }
      ReplaceClears(paragraph, "\n", "<br/>", "\n");
      ContainsChar(body, '\n');
      assert Render(paragraph) == "<p>" + body + "</p>";
    }
  }

  lemma {:induction false} RenderAllNoNewline(paragraphs: seq<string>)
    ensures '\n' !in RenderAll(paragraphs)
    decreases |paragraphs|
  {
    if paragraphs != [] {
      RenderNoNewline(paragraphs[0]);
      RenderAllNoNewline(paragraphs[1..]);
    }
  }

  /** The formatted reply contains no newline at all. */
  lemma FormatNoNewline(text: string)
    ensures '\n' !in FormatReply(text)
  {
    RenderAllNoNewline(Split(Bold(text)));
  }

  /** Non-blank text with no `*` and no newline becomes exactly one paragraph. */
  lemma FormatPlain(text: string)
    requires !IsBlank(text) && '*' !in text && '\n' !in text
    ensures FormatReply(text) == "<p>" + text + "</p>"
  {
    BoldNoStar(text);
    forall i | 0 <= i <= |text| - 2 ensures !OccursAt(text, "\n\n", i) {
      assert text[i..i + 2][0] == text[i];
    }
    ContainsChar(text, '\n');
    ReplaceAbsent(text, "\n", "<br/>");
    SplitNoSeparator(text);
    assert RenderAll([text]) == Render(text) + RenderAll([]);
  }

  /** Each `\n` of a non-blank paragraph becomes `<br/>`; every other character is kept. */
  lemma RenderLineBreaks(paragraph: string)
    requires !IsBlank(paragraph)
    ensures Render(paragraph) == "<p>" + MapChar(paragraph, '\n', "<br/>") + "</p>"
  {
    ReplaceSingleChar(paragraph, '\n', "<br/>");
  }

  /** Two lines of one paragraph are wrapped together, joined by `<br/>`. */
  lemma RenderTwoLines(a: string, b: string)
    requires '\n' !in a && '\n' !in b && !IsBlank(a + "\n" + b)
    ensures Render(a + "\n" + b) == "<p>" + a + "<br/>" + b + "</p>"
  {
    RenderLineBreaks(a + "\n" + b);
    MapCharJoin(a, '\n', b, "<br/>");
  }

  /** The paragraph step alone: a leading paragraph followed by the separator renders first. */
  lemma RenderParagraphs(a: string, b: string)
    requires !Contains(a, "\n\n") && (|a| > 0 ==> a[|a| - 1] != '\n')
    ensures RenderAll(Split(a + "\n\n" + b)) == Render(a) + RenderAll(Split(b))
  {
    SplitCons(a, b);
    assert ([a] + Split(b))[1..] == Split(b);
  }

  /** A lazy match started inside `a` cannot close beyond a line terminator that follows `a`. */
  lemma {:induction false} CloseFromBeforeBreak(a: string, t: string, j: nat)
    requires j <= |a| && |t| > 0 && IsLineTerminator(t[0])
    ensures CloseFrom(a + t, j) == CloseFrom(a, j)
    decreases |a| - j
  {
    var s := a + t;
    if j == |a| {
      assert s[j] == t[0];
    } else if j + 1 == |a| {
      assert s[j + 1] == t[0] && s[j] == a[j];
      if !IsLineTerminator(a[j]) {
        CloseFromBeforeBreak(a, t, j + 1);
      }
    } else {
      assert s[j] == a[j] && s[j + 1] == a[j + 1];
      CloseFromBeforeBreak(a, t, j + 1);
    }
  }

  /** The bold step works line by line: no span crosses a line terminator. */
  lemma {:induction false} BoldBeforeBreak(a: string, t: string)
    requires |t| > 0 && IsLineTerminator(t[0])
    ensures Bold(a + t) == Bold(a) + Bold(t)
    decreases |a|
  {
    if a == [] {
      assert a + t == t;
    } else if IsStarPairAt(a, 0) && CloseFrom(a, 2).Some? {
      var k := CloseFrom(a, 2).value;
      BoldBeforeBreak(a[k + 2..], t);
      BoldSpanBeforeBreak(a, t, k);
    } else {
      BoldBeforeBreak(a[1..], t);
      BoldCharBeforeBreak(a, t);
    }
  }

  lemma BoldSpanBeforeBreak(a: string, t: string, k: nat)
    requires |t| > 0 && IsLineTerminator(t[0])
    requires IsStarPairAt(a, 0) && CloseFrom(a, 2) == Some(k)
    requires Bold(a[k + 2..] + t) == Bold(a[k + 2..]) + Bold(t)
    ensures Bold(a + t) == Bold(a) + Bold(t)
  {
    var x := "<b>" + a[2..k] + "</b>";
    CloseFromBeforeBreak(a, t, 2);
    BoldOpensAfter(a, t, k);
    BoldOpens(a, k);
    Reassoc(x, Bold(a[k + 2..]), Bold(t));
  }

  lemma BoldCharBeforeBreak(a: string, t: string)
    requires |t| > 0 && IsLineTerminator(t[0])
    requires a != [] && !(IsStarPairAt(a, 0) && CloseFrom(a, 2).Some?)
    requires Bold(a[1..] + t) == Bold(a[1..]) + Bold(t)
    ensures Bold(a + t) == Bold(a) + Bold(t)
  {
    var s := a + t;
    assert !(IsStarPairAt(s, 0) && CloseFrom(s, 2).Some?) by {
      if |a| == 1 {
        assert s[1] == t[0];
      } else {
        assert s[0] == a[0] && s[1] == a[1];
        CloseFromBeforeBreak(a, t, 2);
      }
    }
    assert s[0] == a[0] && s[1..] == a[1..] + t;
    BoldKeeps(s);
    BoldKeeps(a);
    Reassoc([a[0]], Bold(a[1..]), Bold(t));
  }

  lemma BoldKeeps(s: string)
    requires s != [] && !(IsStarPairAt(s, 0) && CloseFrom(s, 2).Some?)
    ensures Bold(s) == [s[0]] + Bold(s[1..])
  {
  }

  lemma BoldOpens(s: string, k: nat)
    requires IsStarPairAt(s, 0) && CloseFrom(s, 2) == Some(k)
    ensures Bold(s) == "<b>" + s[2..k] + "</b>" + Bold(s[k + 2..])
  {
  }

  /** A span closing inside `a` is matched the same way whatever follows `a`. */
  lemma BoldOpensAfter(a: string, t: string, k: nat)
    requires IsStarPairAt(a, 0) && CloseFrom(a, 2) == Some(k) && CloseFrom(a + t, 2) == Some(k)
    ensures Bold(a + t) == "<b>" + a[2..k] + "</b>" + Bold(a[k + 2..] + t)
  {
    var s := a + t;
    assert IsStarPairAt(s, 0);
    BoldOpens(s, k);
    assert s[2..k] == a[2..k];
    assert s[k + 2..] == a[k + 2..] + t;
  }

  lemma Reassoc(x: string, y: string, z: string)
    ensures x + (y + z) == x + y + z
  {
  }

  lemma BoldBlankLine(b: string)
    ensures Bold("\n\n" + b) == "\n\n" + Bold(b)
  {
    var s := "\n\n" + b;
    assert !IsStarPairAt(s, 0) && s[1..] == "\n" + b;
    assert !IsStarPairAt(s[1..], 0) && s[1..][1..] == b;
    assert Bold(s[1..]) == "\n" + Bold(b);
  }

  /** The bold step works paragraph by paragraph: no span crosses a blank line. */
  lemma BoldAcrossBlank(a: string, b: string)
    ensures Bold(a + "\n\n" + b) == Bold(a) + "\n\n" + Bold(b)
  {
    var t := "\n\n" + b;
    assert a + t == a + "\n\n" + b;
    BoldBeforeBreak(a, t);
    BoldBlankLine(b);
    Reassoc(Bold(a), "\n\n", Bold(b));
  }

  /** Every newline is followed by a character other than a newline. */
  predicate IsParagraph(s: string) {
    forall i :: 0 <= i < |s| && s[i] == '\n' ==> i + 1 < |s| && s[i + 1] != '\n'
  }

  /** A paragraph is text the split leaves whole: no separator, no trailing newline. */
  lemma ParagraphIff(s: string)
    ensures IsParagraph(s) <==> !Contains(s, "\n\n") && (|s| > 0 ==> s[|s| - 1] != '\n')
  {
    if IsParagraph(s) {
      forall i | 0 <= i <= |s| - 2 ensures !OccursAt(s, "\n\n", i) {
        assert s[i..i + 2][0] == s[i] && s[i..i + 2][1] == s[i + 1];
      }
    }
    if !Contains(s, "\n\n") && (|s| > 0 ==> s[|s| - 1] != '\n') {
      forall i | 0 <= i < |s| && s[i] == '\n' ensures i + 1 < |s| && s[i + 1] != '\n' {
        assert i + 1 < |s|;
        assert !OccursAt(s, "\n\n", i);
        assert s[i..i + 2] == [s[i], s[i + 1]];
      }
    }
  }

  lemma ParagraphSuffix(s: string, j: nat)
    requires IsParagraph(s) && j <= |s|
    ensures IsParagraph(s[j..])
  {
    forall i | 0 <= i < |s[j..]| && s[j..][i] == '\n' ensures i + 1 < |s[j..]| && s[j..][i + 1] != '\n' {
      assert s[j + i] == '\n';
    }
  }

  lemma ParagraphPrepend(x: string, y: string)
    requires '\n' !in x && IsParagraph(y)
    ensures IsParagraph(x + y)
  {
    forall i | 0 <= i < |x + y| && (x + y)[i] == '\n' ensures i + 1 < |x + y| && (x + y)[i + 1] != '\n' {
      if i >= |x| {
        assert y[i - |x|] == '\n';
      }
    }
  }

  lemma ParagraphAfterNewline(y: string)
    requires IsParagraph(y) && |y| > 0 && y[0] != '\n'
    ensures IsParagraph("\n" + y)
  {
    forall i | 0 <= i < |"\n" + y| && ("\n" + y)[i] == '\n' ensures i + 1 < |"\n" + y| && ("\n" + y)[i + 1] != '\n' {
      if i > 0 {
        assert y[i - 1] == '\n';
      }
    }
  }

  /** The bold step starts its output with the first character or with a `<b>` tag. */
  lemma BoldHead(t: string)
    requires |t| > 0
    ensures |Bold(t)| > 0 && (Bold(t)[0] == t[0] || Bold(t)[0] == '<')
  {
    if IsStarPairAt(t, 0) && CloseFrom(t, 2).Some? {
      var k := CloseFrom(t, 2).value;
      BoldOpens(t, k);
      assert Bold(t) == "<b>" + (t[2..k] + "</b>" + Bold(t[k + 2..]));
    } else {
      BoldKeeps(t);
    }
  }

  /** The bold step keeps a paragraph a paragraph: it adds no blank line and no trailing newline. */
  lemma {:induction false} BoldParagraph(s: string)
    requires IsParagraph(s)
    ensures IsParagraph(Bold(s))
    decreases |s|
  {
    if IsStarPairAt(s, 0) && CloseFrom(s, 2).Some? {
      var k := CloseFrom(s, 2).value;
      var x := "<b>" + s[2..k] + "</b>";
      CloseFromFirst(s, 2);
      ParagraphSuffix(s, k + 2);
      BoldParagraph(s[k + 2..]);
      forall i | 0 <= i < |x| ensures x[i] != '\n' {
        if 3 <= i < 3 + k - 2 {
          assert x[i] == s[i - 1];
          assert !IsLineTerminator(s[i - 1]);
        }
      }
      ParagraphPrepend(x, Bold(s[k + 2..]));
    } else if s != [] {
      ParagraphSuffix(s, 1);
      BoldParagraph(s[1..]);
      if s[0] == '\n' {
        assert s[1..][0] == s[1] != '\n';
        BoldHead(s[1..]);
        ParagraphAfterNewline(Bold(s[1..]));
        assert [s[0]] == "\n";
      } else {
        ParagraphPrepend([s[0]], Bold(s[1..]));
      }
    }
  }

  /**
   * Paragraphs come out in order: a leading paragraph `a` (no "\n\n", not
   * ending in "\n") followed by the separator is formatted first, bold spans
   * included.
   */
  lemma FormatParagraphs(a: string, b: string)
    requires !Contains(a, "\n\n") && (|a| > 0 ==> a[|a| - 1] != '\n')
    ensures FormatReply(a + "\n\n" + b) == Render(Bold(a)) + FormatReply(b)
  {
    BoldAcrossBlank(a, b);
    ParagraphIff(a);
    BoldParagraph(a);
    ParagraphIff(Bold(a));
    RenderParagraphs(Bold(a), Bold(b));
  }

  /** No occurrence of a two-character pattern whose first character is absent. */
  lemma NoPairWithout(s: string, pat: string)
    requires |pat| == 2 && pat[0] !in s
    ensures !Contains(s, pat)
  {
    forall i | 0 <= i <= |s| - 2 ensures !OccursAt(s, pat, i) {
      assert s[i..i + 2][0] == s[i];
    }
  }

  /** Two plain paragraphs separated by a blank line are rendered in order. */
  lemma TwoPlainParagraphs(first: string, second: string)
    requires '*' !in first && '\n' !in first && !IsBlank(first)
    requires '*' !in second && '\n' !in second && !IsBlank(second)
    ensures FormatReply(first + "\n\n" + second) == "<p>" + first + "</p>" + "<p>" + second + "</p>"
  {
    var p1, p2 := "<p>" + first + "</p>", "<p>" + second + "</p>";
    assert Render(Bold(first)) == p1 by {
      BoldNoStar(first);
      ContainsChar(first, '\n');
      ReplaceAbsent(first, "\n", "<br/>");
    }
    assert FormatReply(second) == p2 by { FormatPlain(second); }
    assert FormatReply(first + "\n\n" + second) == p1 + p2 by {
      NoPairWithout(first, "\n\n");
      FormatParagraphs(first, second);
    }
    Reassoc(p1, "<p>" + second, "</p>");
  }

  /**
   * A reply made of a bold span, the rest of its first paragraph, a blank
   * line and a second paragraph (e.g. "**Hi** there\n\nHow can I help?") is
   * shown as two paragraphs, the first starting with the span in bold.
   */
  lemma BoldThenTwoParagraphs(hi: string, there: string, help: string)
    requires forall i :: 0 <= i < |hi| ==> !IsLineTerminator(hi[i])
    requires '*' !in hi && '*' !in there && '*' !in help
    requires '\n' !in there && '\n' !in help && !IsBlank(help)
    ensures FormatReply("**" + hi + "**" + there + "\n\n" + help)
         == "<p>" + ("<b>" + hi + "</b>" + there) + "</p>" + "<p>" + help + "</p>"
  {
    var tail := there + "\n\n" + help;
    var first := "<b>" + hi + "</b>" + there;
    var joined := first + "\n\n" + help;
    NoPairWithout(hi, "**");
    assert "**" + hi + "**" + there + "\n\n" + help == "**" + hi + "**" + tail;
    BoldSpan(hi, tail);
    BoldNoStar(tail);
    assert Bold("**" + hi + "**" + tail) == joined;
    assert '\n' !in hi by {
      forall i | 0 <= i < |hi| ensures hi[i] != '\n' { assert !IsLineTerminator(hi[i]); }
    }
    assert !IsBlank(first) by { assert !IsJsSpace(first[0]); }
    BoldNoStar(joined);
    assert '*' !in first && '\n' !in first;
    TwoPlainParagraphs(first, help);
    assert FormatReply("**" + hi + "**" + there + "\n\n" + help) == FormatReply(joined);
  }
}
