/**
 * The GLSL source preprocessor: given legacy (pre-3.0) shader text, a stage and
 * an OpenGL version label, it prepends a `#version` line and, for targets of
 * GLSL 1.30 and later, renames the legacy identifiers line by line with a fixed,
 * ordered list of whole-word rewrite rules.
 */
module Preprocessor {
  import opened Outcomes
  import opened Text

  /** OpenGL version label to the GLSL version number written after `#version`. */
  const GlslVersions: map<string, nat> := map[
    "2.0" := 110, "2.1" := 120, "3.0" := 130, "3.1" := 140,
    "3.2" := 150, "3.3" := 330, "4.0" := 400, "4.1" := 410,
    "4.2" := 420, "4.3" := 430, "4.4" := 440, "4.5" := 450]

  /** GLSL versions below this one predate OpenGL 3.0 and need no rewriting. */
  const FirstModernGlsl: nat := 130

  /** One alternative of a rule's search pattern; never empty, so a match always consumes text. */
  type Word = w: string | |w| > 0 witness "_"

  /**
   * The two pattern shapes: `Identifier` is a name that is neither part of a
   * longer name nor being called; `Call` is a name followed by optional
   * whitespace and an opening parenthesis.
   */
  datatype Shape = Identifier | Call

  /** A `(pattern, search, replace)` entry: the alternatives of `search`, tried in order. */
  datatype Rule = Rule(shape: Shape, words: seq<Word>, replacement: string)

  const TextureFunctions: seq<Word> := ["texture2DRect", "texture2D", "texture3D", "textureCube"]

  const VertexRules: seq<Rule> := [
    Rule(Identifier, ["varying"], "out"),
    Rule(Identifier, ["attribute"], "in"),
    Rule(Identifier, ["texture"], "texMap"),
    Rule(Call, TextureFunctions, "texture")]

  const FragmentRules: seq<Rule> := [
    Rule(Identifier, ["varying", "attribute"], "in"),
    Rule(Identifier, ["texture"], "texMap"),
    Rule(Call, TextureFunctions, "texture"),
    Rule(Identifier, ["gl_FragColor"], "_fragColor")]

  /** The output declaration a fragment shader gains, with no newline after it. */
  const FragColorDeclaration: string := "out vec4 _fragColor;"

  // ---------------------------------------------------------------------------
  // Matching one alternative at one position
  // ---------------------------------------------------------------------------

  /** The lookbehind `(?<![0-9A-Z_a-z])` succeeds at position `i`. */
  predicate BoundaryBefore(s: string, i: nat) {
    i == 0 || (i <= |s| && !IsWordChar(s[i - 1]))
  }

  /** `\s*\(` matches at position `j`. */
  predicate CallFollows(s: string, j: nat)
    decreases |s| - j
  {
    j < |s| && (s[j] == '(' || (IsSpace(s[j]) && CallFollows(s, j + 1)))
  }

  /** The lookahead of the shape succeeds at position `j`, just after the matched name. */
  predicate LookaheadHolds(shape: Shape, s: string, j: nat) {
    match shape
    case Identifier => !(j < |s| && IsWordChar(s[j])) && !CallFollows(s, j)
    case Call => CallFollows(s, j)
  }

  /**
   * The pattern, restricted to the alternative `w`, matches `s` at position `i`:
   * `w` stands there, not glued to a word character on its left, nor, for an
   * identifier, on its right.
   */
  predicate MatchesAt(shape: Shape, s: string, i: nat, w: Word)
    ensures MatchesAt(shape, s, i, w) ==> i + |w| <= |s| && s[i..i + |w|] == w
    ensures MatchesAt(shape, s, i, w) ==> i == 0 || !IsWordChar(s[i - 1])
    ensures MatchesAt(shape, s, i, w) && shape == Identifier ==> i + |w| == |s| || !IsWordChar(s[i + |w|])
  {
    assert OccursAt(s, i, w) ==> s[i..i + |w|] == w by { OccursAtIff(s, i, w); }
    BoundaryBefore(s, i) && OccursAt(s, i, w) && LookaheadHolds(shape, s, i + |w|)
  }

  /**
   * The index of the first alternative, from the `k`-th on, that matches at `i`:
   * alternation commits to the earliest alternative whose lookarounds succeed.
   */
  function FirstMatch(rule: Rule, s: string, i: nat, k: nat): (r: Option<nat>)
    requires k <= |rule.words|
    ensures r.Some? ==> k <= r.value < |rule.words| && MatchesAt(rule.shape, s, i, rule.words[r.value])
    ensures r.Some? ==> forall m :: k <= m < r.value ==> !MatchesAt(rule.shape, s, i, rule.words[m])
    ensures r.None? ==> forall m :: k <= m < |rule.words| ==> !MatchesAt(rule.shape, s, i, rule.words[m])
    decreases |rule.words| - k
  {
    if k == |rule.words| then None
    else if MatchesAt(rule.shape, s, i, rule.words[k]) then Some(k)
    else FirstMatch(rule, s, i, k + 1)
  }

  // ---------------------------------------------------------------------------
  // One substitution pass of one rule over one line
  // ---------------------------------------------------------------------------

  /**
   * The output of a left-to-right, non-overlapping substitution pass over
   * `s[i..]`. Lookbehinds and lookaheads read `s`, the line as it stood before
   * this rule, never the replacement text already produced.
   */
  function SubstituteFrom(rule: Rule, s: string, i: nat): string
    requires i <= |s|
    decreases |s| - i
  {
    if i == |s| then []
    else match FirstMatch(rule, s, i, 0)
      case Some(m) => rule.replacement + SubstituteFrom(rule, s, i + |rule.words[m]|)
      case None => [s[i]] + SubstituteFrom(rule, s, i + 1)
  }

  /** No alternative of the rule matches at any position in `[i, p)`. */
  predicate NoMatchBetween(rule: Rule, s: string, i: nat, p: nat) {
    forall q, w :: i <= q < p && w in rule.words ==> !MatchesAt(rule.shape, s, q, w)
  }

  /**
   * `re.sub(pattern, replacement, s)` for the rule's pattern. A line on which
   * the pattern matches nowhere is copied verbatim, and a replacement without a
   * newline never puts one into a line.
   */
  function Substitute(rule: Rule, s: string): (r: string)
    ensures NoMatchBetween(rule, s, 0, |s|) ==> r == s
    ensures '\n' !in s && '\n' !in rule.replacement ==> '\n' !in r
  {
    assert NoMatchBetween(rule, s, 0, |s|) ==> SubstituteFrom(rule, s, 0) == s by {
      if NoMatchBetween(rule, s, 0, |s|) {
        SubstituteSkips(rule, s, 0, |s|);
      }
    }
    assert '\n' !in s && '\n' !in rule.replacement ==> '\n' !in SubstituteFrom(rule, s, 0) by {
      if '\n' !in s && '\n' !in rule.replacement {
        SubstituteFromNoNewline(rule, s, 0);
      }
    }
    SubstituteFrom(rule, s, 0)
  }

  /** Text before the first match is copied unchanged. */
  lemma {:induction false} SubstituteSkips(rule: Rule, s: string, i: nat, p: nat)
    requires i <= p <= |s|
    requires NoMatchBetween(rule, s, i, p)
    ensures SubstituteFrom(rule, s, i) == s[i..p] + SubstituteFrom(rule, s, p)
    decreases p - i
  {
    if i < p {
      SubstituteSkips(rule, s, i + 1, p);
      assert s[i..p] == [s[i]] + s[i + 1..p];
    }
  }

  /**
   * From position `i`, the pass copies everything up to the next match at `p`,
   * replaces that match (the first alternative, in pattern order, that matches
   * there) and resumes scanning just after it.
   */
  lemma SubstituteNextMatch(rule: Rule, s: string, i: nat, p: nat, m: nat)
    requires m < |rule.words| && i <= p <= |s|
    requires NoMatchBetween(rule, s, i, p)
    requires MatchesAt(rule.shape, s, p, rule.words[m])
    requires forall m' :: 0 <= m' < m ==> !MatchesAt(rule.shape, s, p, rule.words[m'])
    ensures p + |rule.words[m]| <= |s|
    ensures SubstituteFrom(rule, s, i) == s[i..p] + rule.replacement + SubstituteFrom(rule, s, p + |rule.words[m]|)
  {
    var w := rule.words[m];
    SubstituteSkips(rule, s, i, p);
    assert FirstMatch(rule, s, p, 0) == Some(m);
    assert SubstituteFrom(rule, s, p) == rule.replacement + SubstituteFrom(rule, s, p + |w|);
    assert s[i..p] + (rule.replacement + SubstituteFrom(rule, s, p + |w|))
        == s[i..p] + rule.replacement + SubstituteFrom(rule, s, p + |w|);
  }

  /** A line in which none of the rule's words occurs is copied verbatim. */
  lemma SubstituteAbsentWords(rule: Rule, s: string)
    requires forall w :: w in rule.words ==> !Contains(s, w)
    ensures Substitute(rule, s) == s
  {
    forall q, w | 0 <= q < |s| && w in rule.words
      ensures !MatchesAt(rule.shape, s, q, w)
    {
      ContainsIff(s, w);
    }
  }

  /** A pass whose replacement has no newline keeps a line free of newlines. */
  lemma {:induction false} SubstituteFromNoNewline(rule: Rule, s: string, i: nat)
    requires i <= |s|
    requires '\n' !in s && '\n' !in rule.replacement
    ensures '\n' !in SubstituteFrom(rule, s, i)
    decreases |s| - i
  {
    if i < |s| {
      match FirstMatch(rule, s, i, 0)
      case Some(m) => SubstituteFromNoNewline(rule, s, i + |rule.words[m]|);
      case None => SubstituteFromNoNewline(rule, s, i + 1);
    }
  }

  // ---------------------------------------------------------------------------
  // All rules of a stage over one line, then over the whole source
  // ---------------------------------------------------------------------------

  /** The rules applied one after another, each to the previous rule's output. */
  function RewriteLine(rules: seq<Rule>, line: string): string
    decreases |rules|
  {
    if rules == [] then line else RewriteLine(rules[1..], Substitute(rules[0], line))
  }

  /** A line holding none of the words any rule searches for is left as it is. */
  lemma {:induction false} RewriteLineAbsentWords(rules: seq<Rule>, line: string)
    requires forall r, w :: r in rules && w in r.words ==> !Contains(line, w)
    ensures RewriteLine(rules, line) == line
    decreases |rules|
  {
    if rules != [] {
      SubstituteAbsentWords(rules[0], line);
      assert forall r :: r in rules[1..] ==> r in rules;
      RewriteLineAbsentWords(rules[1..], line);
    }
  }

  /** Rewriting never introduces a line break, so line structure is preserved. */
  lemma {:induction false} RewriteLineNoNewline(rules: seq<Rule>, line: string)
    requires forall r :: r in rules ==> '\n' !in r.replacement
    requires '\n' !in line
    ensures '\n' !in RewriteLine(rules, line)
    decreases |rules|
  {
    if rules != [] {
      SubstituteFromNoNewline(rules[0], line, 0);
      assert forall r :: r in rules[1..] ==> r in rules;
      RewriteLineNoNewline(rules[1..], Substitute(rules[0], line));
    }
  }

  /** Each line, rewritten, followed by a newline, in the order of the lines. */
  function Body(rules: seq<Rule>, lines: seq<string>): string
    decreases |lines|
  {
    if lines == [] then []
    else Body(rules, lines[..|lines| - 1]) + RewriteLine(rules, lines[|lines| - 1]) + "\n"
  }

  /** Extending the emitted prefix of the lines, after any header, by one more line. */
  lemma BodyStep(rules: seq<Rule>, lines: seq<string>, k: nat, header: string)
    requires k < |lines|
    ensures header + Body(rules, lines[..k + 1]) == header + Body(rules, lines[..k]) + (RewriteLine(rules, lines[k]) + "\n")
  {
    assert lines[..k + 1][..k] == lines[..k];
    assert header + (Body(rules, lines[..k]) + RewriteLine(rules, lines[k]) + "\n")
        == header + Body(rules, lines[..k]) + (RewriteLine(rules, lines[k]) + "\n");
  }

  function RewriteAll(rules: seq<Rule>, lines: seq<string>): (out: seq<string>)
    ensures |out| == |lines|
    ensures forall k :: 0 <= k < |lines| ==> out[k] == RewriteLine(rules, lines[k])
  {
    seq(|lines|, k requires 0 <= k < |lines| => RewriteLine(rules, lines[k]))
  }

  /** The body is the rewritten lines joined by newlines, with one more newline at the end. */
  lemma {:induction false} BodyIsJoin(rules: seq<Rule>, lines: seq<string>)
    requires |lines| >= 1
    ensures Body(rules, lines) == Join(RewriteAll(rules, lines)) + "\n"
    decreases |lines|
  {
    if |lines| > 1 {
      var init := lines[..|lines| - 1];
      BodyIsJoin(rules, init);
      JoinSnoc(RewriteAll(rules, init), RewriteLine(rules, lines[|lines| - 1]));
      assert RewriteAll(rules, init) + [RewriteLine(rules, lines[|lines| - 1])] == RewriteAll(rules, lines);
    }
  }

  lemma {:induction false} JoinSnoc(lines: seq<string>, last: string)
    requires |lines| >= 1
    ensures Join(lines + [last]) == Join(lines) + "\n" + last
    decreases |lines|
  {
    if |lines| == 1 {
      assert lines + [last] == [lines[0], last];
    } else {
      JoinSnoc(lines[1..], last);
      assert (lines + [last])[1..] == lines[1..] + [last];
    }
  }

  /**
   * Exactly the OpenGL 2.x labels resolve below GLSL 1.30, so only they skip
   * the rewriting; no two labels share a GLSL version.
   */
  lemma VersionTable()
    ensures forall v :: v in GlslVersions ==> (GlslVersions[v] < FirstModernGlsl <==> v == "2.0" || v == "2.1")
    ensures forall v, v' :: v in GlslVersions && v' in GlslVersions && GlslVersions[v] == GlslVersions[v'] ==> v == v'
  {
  }

  /** The synthesised first line: `#version `, the number in decimal, then a newline and nothing after it. */
  function VersionLine(n: nat): (r: string)
    ensures |r| > 9 && r[..9] == "#version " && r[9..|r| - 1] == Decimal(n)
    ensures r[|r| - 1] == '\n' && '\n' !in r[..|r| - 1]
  {
    var r := "#version " + Decimal(n) + "\n";
    assert r[..|r| - 1] == "#version " + Decimal(n);
    r
  }

  /** A text that begins with the version line contains `#version`. */
  lemma VersionLineDeclaresVersion(n: nat, rest: string)
    ensures Contains(VersionLine(n) + rest, "#version")
  {
    var v := VersionLine(n);
    assert OccursAt(v + rest, 0, "#version") by {
      OccursAtIff(v + rest, 0, "#version");
      assert (v + rest)[0..8] == v[..9][..8];
    }
    ContainsIff(v + rest, "#version");
  }

  /** So does one that begins with the version line and a preamble. */
  lemma HeaderDeclaresVersion(n: nat, preamble: string, rest: string)
    ensures Contains(VersionLine(n) + preamble + rest, "#version")
  {
    VersionLineDeclaresVersion(n, preamble + rest);
    assert VersionLine(n) + (preamble + rest) == VersionLine(n) + preamble + rest;
  }

  /**
   * The rules of a stage; only `vertex` and `fragment` have any, four each, and
   * no replacement holds a newline.
   */
  function StageRules(stage: string): (r: Option<seq<Rule>>)
    ensures r.Some? <==> stage == "vertex" || stage == "fragment"
    ensures r.Some? ==> |r.value| == 4 && forall rule :: rule in r.value ==> '\n' !in rule.replacement
  {
    if stage == "vertex" then Some(VertexRules)
    else if stage == "fragment" then Some(FragmentRules)
    else None
  }

  /**
   * The declarations emitted between the version line and the rewritten source:
   * only a fragment shader gets one, and it ends without a newline.
   */
  function StagePreamble(stage: string): (r: string)
    ensures r != [] <==> stage == "fragment"
    ensures '\n' !in r
  {
    if stage == "fragment" then FragColorDeclaration else ""
  }

  /**
   * What `preprocess_shader` returns or raises, as a single expression. The only
   * failures are the unknown label and the unsupported stage, and every result
   * declares a version.
   */
  function Preprocess(source: string, stage: string, version: string): (r: Result<string>)
    ensures r.Err? ==> r == Err(UnknownVersion(version)) || r == Err(UnsupportedStage(stage))
    ensures r.Ok? ==> Contains(r.value, "#version")
  {
    if version !in GlslVersions then Err(UnknownVersion(version))
    else if Contains(source, "#version") then Ok(source)
    else
      var n := GlslVersions[version];
      if n < FirstModernGlsl then
        assert Contains(VersionLine(n) + source, "#version") by { VersionLineDeclaresVersion(n, source); }
        Ok(VersionLine(n) + source)
      else match StageRules(stage)
        case None => Err(UnsupportedStage(stage))
        case Some(rules) =>
          assert Contains(VersionLine(n) + StagePreamble(stage) + Body(rules, Split(source)), "#version") by {
            HeaderDeclaresVersion(n, StagePreamble(stage), Body(rules, Split(source)));
          }
          Ok(VersionLine(n) + StagePreamble(stage) + Body(rules, Split(source)))
  }

  /** The inner loop of the preprocessor: every rule, in order, rewrites the line in turn. */
  method ApplyPatterns(patterns: seq<Rule>, line: string) returns (newLine: string)
    ensures newLine == RewriteLine(patterns, line)
  {
    newLine := line;
    var j := 0;
    while j < |patterns|
      invariant 0 <= j <= |patterns|
      invariant RewriteLine(patterns[j..], newLine) == RewriteLine(patterns, line)
    {
      newLine := Substitute(patterns[j], newLine);
      assert patterns[j..][1..] == patterns[j + 1..];
      j := j + 1;
    }
  }

  /**
   * The preprocessor as `preprocess_shader` runs it: the header is built first, then
   * each line is pushed through the stage's rules in order and appended with a
   * newline.
   */
  method PreprocessShader(shaderSource: string, shaderType: string, openGlVersion: string)
    returns (r: Result<string>)
    ensures r == Preprocess(shaderSource, shaderType, openGlVersion)
  {
    if openGlVersion !in GlslVersions {
      return Err(UnknownVersion(openGlVersion));
    }
    var target := GlslVersions[openGlVersion];
    if Contains(shaderSource, "#version") {
      return Ok(shaderSource);
    }
    var processed := VersionLine(target);
    if target < FirstModernGlsl {
      return Ok(processed + shaderSource);
    }
    var patterns: seq<Rule>;
    if shaderType == "vertex" {
      patterns := VertexRules;
    } else if shaderType == "fragment" {
      patterns := FragmentRules;
      processed := processed + FragColorDeclaration;
    } else {
      return Err(UnsupportedStage(shaderType));
    }
    ghost var header := processed;
    assert header == VersionLine(target) + StagePreamble(shaderType);
    var lines := Split(shaderSource);
    var k := 0;
    while k < |lines|
      invariant 0 <= k <= |lines|
      invariant processed == header + Body(patterns, lines[..k])
    {
      var newLine := ApplyPatterns(patterns, lines[k]);
      BodyStep(patterns, lines, k, header);
      processed := processed + (newLine + "\n");
      k := k + 1;
    }
    assert lines[..k] == lines;
    return Ok(processed);
  }
}
