/**
 * Two legacy shaders pushed through the preprocessor, rule by rule: a vertex
 * shader whose `attribute` becomes `in` and whose `texture2D` call becomes
 * `texture`, and a fragment shader whose variable `texture` becomes `texMap`
 * in both its declaration and its use, next to a `texture2D` call that is
 * renamed and not mistaken for the variable.
 *
 * Each step lemma takes the line as a parameter equal to a concatenation of
 * short pieces cut where the matches begin and end, so the verifier reasons
 * about the matches the lemma names instead of unfolding a substitution pass
 * over every position of a literal.
 */
module RewriteExamples {
  import opened Outcomes
  import opened Text
  import opened Preprocessor
  import opened PreprocessorProperties

  // ---------------------------------------------------------------------------
  // Matches and passes over a line cut as `x + w + y`
  // ---------------------------------------------------------------------------

  /** Whether a call follows depends only on the text from that point on. */
  lemma {:induction false} CallFollowsShift(x: string, y: string, k: nat)
    requires k <= |y|
    ensures CallFollows(x + y, |x| + k) == CallFollows(y, k)
    decreases |y| - k
  {
    if k < |y| {
      assert (x + y)[|x| + k] == y[k];
      CallFollowsShift(x, y, k + 1);
    }
  }

  /** `w` matches between `x` and `y` when `x` does not end in a word character and `y` satisfies the lookahead. */
  lemma MatchesBetween(shape: Shape, s: string, x: string, w: Word, y: string)
    requires s == x + w + y
    requires x == [] || !IsWordChar(x[|x| - 1])
    requires LookaheadHolds(shape, y, 0)
    ensures MatchesAt(shape, s, |x|, w)
  {
    OccursAtIff(s, |x|, w);
    assert s[|x|..|x| + |w|] == w;
    assert s == (x + w) + y;
    CallFollowsShift(x + w, y, 0);
    if |y| > 0 {
      assert s[|x| + |w|] == y[0];
    }
    if |x| > 0 {
      assert s[|x| - 1] == x[|x| - 1];
    }
  }

  /** `t` does not stand at `i` when one of its characters differs from the text. */
  lemma Mismatch(s: string, i: nat, t: string, j: nat)
    requires j < |t| && i + j < |s| && s[i + j] != t[j]
    ensures !OccursAt(s, i, t)
  {
    OccursAtIff(s, i, t);
    if i + |t| <= |s| {
      assert s[i..i + |t|][j] == s[i + j];
    }
  }

  /**
   * No alternative matches at a position of `[i, p)` when every alternative's
   * `j`-th character is missing from `mid`, and `mid` reaches far enough: up to
   * `p + j`, or up to the end of a `post` too short to hold any alternative.
   */
  lemma NoMatchWithin(rule: Rule, s: string, i: nat, p: nat, pre: string, mid: string, post: string, j: nat)
    requires s == pre + mid + post
    requires forall w :: w in rule.words ==> j < |w| && w[j] !in mid
    requires |pre| <= i + j
    requires p + j <= |pre| + |mid| || forall w :: w in rule.words ==> |post| + j < |w|
    ensures NoMatchBetween(rule, s, i, p)
  {
    forall q: nat, w | i <= q < p && w in rule.words
      ensures !MatchesAt(rule.shape, s, q, w)
    {
      MissingCharacterIn(s, pre, mid, post, w, j);
    }
  }

  /** A pass over `x + w + y` whose only match is `w`, by alternative `m`, replaces it and copies the rest. */
  lemma SubstituteSingle(rule: Rule, s: string, x: string, w: Word, y: string, m: nat)
    requires s == x + w + y
    requires m < |rule.words| && rule.words[m] == w
    requires NoMatchBetween(rule, s, 0, |x|)
    requires MatchesAt(rule.shape, s, |x|, w)
    requires forall m' :: 0 <= m' < m ==> !MatchesAt(rule.shape, s, |x|, rule.words[m'])
    requires NoMatchBetween(rule, s, |x| + |w|, |s|)
    ensures Substitute(rule, s) == x + rule.replacement + y
  {
    assert SubstituteFrom(rule, s, |x| + |w|) == y by {
      SubstituteSkips(rule, s, |x| + |w|, |s|);
      assert s[|x| + |w|..|s|] == y;
    }
    assert SubstituteFrom(rule, s, 0) == x + rule.replacement + y by {
      SubstituteNextMatch(rule, s, 0, |x|, m);
      assert s[0..|x|] == x;
    }
  }

  /** A position where nothing matches joins two stretches where nothing matches. */
  lemma NoMatchAround(rule: Rule, s: string, i: nat, p: nat, r: nat)
    requires NoMatchBetween(rule, s, i, p) && NoMatchBetween(rule, s, p + 1, r)
    requires forall w :: w in rule.words ==> !MatchesAt(rule.shape, s, p, w)
    ensures NoMatchBetween(rule, s, i, r)
  {
  }

  // ---------------------------------------------------------------------------
  // Vertex: `attribute vec3 position;`
  // ---------------------------------------------------------------------------

  lemma AttributeMatch(s: string)
    requires s == "" + "attribute" + " vec3 position;"
    ensures MatchesAt(Identifier, s, 0, "attribute")
  {
    MatchesBetween(Identifier, s, "", "attribute", " vec3 position;");
  }

  lemma AttributeAfter(rule: Rule, s: string)
    requires rule.words == ["attribute"]
    requires s == "" + "attribute" + " vec3 position;"
    ensures NoMatchBetween(rule, s, 9, |s|)
  {
    NoMatchWithin(rule, s, 9, |s|, "" + "attribute", " vec3 position;", "", 0);
  }

  lemma AttributeRenamed(s: string)
    requires s == "attribute vec3 position;"
    ensures Substitute(VertexRules[1], s) == "" + "in" + " vec3 position;"
  {
    assert s == "" + "attribute" + " vec3 position;";
    AttributeMatch(s);
    AttributeAfter(VertexRules[1], s);
    SubstituteSingle(VertexRules[1], s, "", "attribute", " vec3 position;", 0);
  }

  lemma VertexDeclarationNoVarying(rule: Rule, s: string)
    requires rule.words == ["varying"]
    requires s == "attribute vec3 position;"
    ensures Substitute(rule, s) == s
  {
    MissingCharacter(s, "varying", 3);
    SubstituteAbsentWords(rule, s);
  }

  lemma VertexDeclarationNoTexture(rule: Rule, s: string)
    requires rule.words == ["texture"] || rule.words == TextureFunctions
    requires s == "" + "in" + " vec3 position;"
    ensures Substitute(rule, s) == s
  {
    forall w | w in rule.words
      ensures !Contains(s, w)
    {
      MissingCharacter(s, w, 2);
    }
    SubstituteAbsentWords(rule, s);
  }

  /** Only `attribute` is renamed; `position` is left alone. */
  lemma VertexDeclarationLine(s: string)
    requires s == "attribute vec3 position;"
    ensures RewriteLine(VertexRules, s) == "" + "in" + " vec3 position;"
  {
    FourRules(VertexRules, s);
    VertexDeclarationNoVarying(VertexRules[0], s);
    AttributeRenamed(s);
    var s1 := Substitute(VertexRules[1], s);
    VertexDeclarationNoTexture(VertexRules[2], s1);
    VertexDeclarationNoTexture(VertexRules[3], s1);
  }

  // ---------------------------------------------------------------------------
  // Vertex: `gl_Position = texture2D(position);`
  // ---------------------------------------------------------------------------

  /** No name starting with `te` stands before the call. */
  lemma VertexBodyBeforeCall(rule: Rule, s: string)
    requires rule.words == ["texture"] || rule.words == TextureFunctions
    requires s == "gl_Position = " + "texture2D" + "(position);"
    ensures NoMatchBetween(rule, s, 0, 14)
  {
    assert s == "g" + "l_Position = t" + "exture2D(position);";
    NoMatchWithin(rule, s, 0, 14, "g", "l_Position = t", "exture2D(position);", 1);
  }

  /** `texture` starts nowhere after the `te` of the call. */
  lemma VertexBodyAfterTe(rule: Rule, s: string)
    requires rule.words == ["texture"]
    requires s == "gl_Position = " + "texture2D" + "(position);"
    ensures NoMatchBetween(rule, s, 15, |s|)
  {
    assert s == "gl_Position = tex" + "ture2D(position);" + "";
    NoMatchWithin(rule, s, 15, |s|, "gl_Position = tex", "ture2D(position);", "", 2);
  }

  lemma VertexBodyAfterCall(rule: Rule, s: string)
    requires rule.words == TextureFunctions
    requires s == "gl_Position = " + "texture2D" + "(position);"
    ensures NoMatchBetween(rule, s, 23, |s|)
  {
    assert s == "gl_Position = texture2D(p" + "osition);" + "";
    NoMatchWithin(rule, s, 23, |s|, "gl_Position = texture2D(p", "osition);", "", 2);
  }

  /** The `texture` at the start of `texture2D` is glued to the `2` after it. */
  lemma VertexBodyGluedTexture(s: string)
    requires s == "gl_Position = " + "texture2D" + "(position);"
    ensures !MatchesAt(Identifier, s, 14, "texture")
  {
    assert IsWordChar(s[21]);
  }

  /** `texture2D` is a call, not the variable `texture`: the variable rule leaves it alone. */
  lemma TextureCallNotAVariable(rule: Rule, s: string)
    requires rule == Rule(Identifier, ["texture"], "texMap")
    requires s == "gl_Position = " + "texture2D" + "(position);"
    ensures Substitute(rule, s) == s
  {
    VertexBodyBeforeCall(rule, s);
    VertexBodyAfterTe(rule, s);
    VertexBodyGluedTexture(s);
    NoMatchAround(rule, s, 0, 14, |s|);
  }

  lemma VertexBodyCall(s: string)
    requires s == "gl_Position = " + "texture2D" + "(position);"
    ensures MatchesAt(Call, s, 14, "texture2D") && !MatchesAt(Call, s, 14, "texture2DRect")
  {
    Mismatch(s, 14, "texture2DRect", 9);
    MatchesBetween(Call, s, "gl_Position = ", "texture2D", "(position);");
  }

  lemma TextureCallRenamed(rule: Rule, s: string)
    requires rule == Rule(Call, TextureFunctions, "texture")
    requires s == "gl_Position = " + "texture2D" + "(position);"
    ensures Substitute(rule, s) == "gl_Position = " + "texture" + "(position);"
  {
    VertexBodyBeforeCall(rule, s);
    VertexBodyAfterCall(rule, s);
    VertexBodyCall(s);
    SubstituteSingle(rule, s, "gl_Position = ", "texture2D", "(position);", 1);
  }

  /** The declaration rules find nothing in the body line. */
  lemma VertexBodyNoDeclaration(rule: Rule, s: string)
    requires rule.words == ["varying"] || rule.words == ["attribute"]
    requires s == "gl_Position = " + "texture2D" + "(position);"
    ensures Substitute(rule, s) == s
  {
    forall w | w in rule.words
      ensures !Contains(s, w)
    {
      MissingCharacter(s, w, if w == "varying" then 3 else 5);
    }
    SubstituteAbsentWords(rule, s);
  }

  /** `gl_Position` is not in the vertex rules; only the `texture2D` call changes. */
  lemma VertexBodyLine(s: string)
    requires s == "gl_Position = " + "texture2D" + "(position);"
    ensures RewriteLine(VertexRules, s) == "gl_Position = " + "texture" + "(position);"
  {
    FourRules(VertexRules, s);
    VertexBodyNoDeclaration(VertexRules[0], s);
    VertexBodyNoDeclaration(VertexRules[1], s);
    TextureCallNotAVariable(VertexRules[2], s);
    TextureCallRenamed(VertexRules[3], s);
  }

  /** The two-line vertex shader, targeting OpenGL 3.3, comes out as GLSL 3.30. */
  lemma VertexExample(source: string)
    requires source == "attribute vec3 position;" + "\n" + "gl_Position = " + "texture2D" + "(position);"
    ensures Preprocess(source, "vertex", "3.3")
         == Ok("#version 330\n" + "in vec3 position;\n" + "gl_Position = texture(position);\n")
  {
    var l1 := "attribute vec3 position;";
    var l2 := "gl_Position = " + "texture2D" + "(position);";
    VertexSourceLines(source);
    VertexDeclarationLine(l1);
    VertexBodyLine(l2);
    TargetVersionLine("3.3", 330);
    TwoLineResult(source, "3.3", "vertex", VertexRules, l1, l2);
    VertexAssembly(VersionLine(330), RewriteLine(VertexRules, l1), RewriteLine(VertexRules, l2));
  }

  lemma VertexSourceLines(source: string)
    requires source == "attribute vec3 position;" + "\n" + "gl_Position = " + "texture2D" + "(position);"
    ensures Split(source) == ["attribute vec3 position;", "gl_Position = " + "texture2D" + "(position);"]
    ensures !Contains(source, "#version")
  {
    SourceOfTwoLines(source, "attribute vec3 position;", "gl_Position = " + "texture2D" + "(position);");
    VertexSourceUnversioned(source);
  }

  lemma VertexSourceUnversioned(source: string)
    requires source == "attribute vec3 position;" + "\n" + "gl_Position = " + "texture2D" + "(position);"
    ensures !Contains(source, "#version")
  {
    MissingCharacter(source, "#version", 0);
  }

  lemma VertexAssembly(v: string, r1: string, r2: string)
    requires v == "#version 330\n"
    requires r1 == "" + "in" + " vec3 position;"
    requires r2 == "gl_Position = " + "texture" + "(position);"
    ensures v + StagePreamble("vertex") + (r1 + "\n" + r2 + "\n")
         == "#version 330\n" + "in vec3 position;\n" + "gl_Position = texture(position);\n"
  {
  }

  // ---------------------------------------------------------------------------
  // Fragment: `varying vec4 texture;`
  // ---------------------------------------------------------------------------

  lemma VaryingMatch(s: string)
    requires s == "" + "varying" + " vec4 texture;"
    ensures MatchesAt(Identifier, s, 0, "varying")
  {
    MatchesBetween(Identifier, s, "", "varying", " vec4 texture;");
  }

  lemma VaryingAfter(rule: Rule, s: string)
    requires rule.words == ["varying", "attribute"]
    requires s == "" + "varying" + " vec4 texture;"
    ensures NoMatchBetween(rule, s, 7, |s|)
  {
    NoMatchWithin(rule, s, 7, |s|, "" + "varying", " vec4 texture;", "", 4);
  }

  lemma VaryingRenamed(s: string)
    requires s == "varying vec4 texture;"
    ensures Substitute(FragmentRules[0], s) == "" + "in" + " vec4 texture;"
  {
    assert s == "" + "varying" + " vec4 texture;";
    VaryingMatch(s);
    VaryingAfter(FragmentRules[0], s);
    SubstituteSingle(FragmentRules[0], s, "", "varying", " vec4 texture;", 0);
  }

  lemma DeclaredVariableMatch(s: string)
    requires s == "in vec4 " + "texture" + ";"
    ensures MatchesAt(Identifier, s, 8, "texture")
  {
    MatchesBetween(Identifier, s, "in vec4 ", "texture", ";");
  }

  lemma DeclaredVariableAround(rule: Rule, s: string)
    requires rule.words == ["texture"]
    requires s == "in vec4 " + "texture" + ";"
    ensures NoMatchBetween(rule, s, 0, 8) && NoMatchBetween(rule, s, 15, |s|)
  {
    NoMatchWithin(rule, s, 0, 8, "", "in vec4 ", "texture" + ";", 0);
    NoMatchWithin(rule, s, 15, |s|, "in vec4 " + "texture", ";", "", 0);
  }

  lemma DeclaredVariableRenamed(rule: Rule, s: string)
    requires rule == Rule(Identifier, ["texture"], "texMap")
    requires s == "" + "in" + " vec4 texture;"
    ensures Substitute(rule, s) == "in vec4 " + "texMap" + ";"
  {
    assert s == "in vec4 " + "texture" + ";";
    DeclaredVariableMatch(s);
    DeclaredVariableAround(rule, s);
    SubstituteSingle(rule, s, "in vec4 ", "texture", ";", 0);
  }

  lemma FragmentDeclarationNoTexture(rule: Rule, s: string)
    requires rule.words == TextureFunctions
    requires s == "in vec4 " + "texMap" + ";"
    ensures Substitute(rule, s) == s
  {
    forall w | w in rule.words
      ensures !Contains(s, w)
    {
      MissingCharacter(s, w, 4);
    }
    SubstituteAbsentWords(rule, s);
  }

  lemma FragmentDeclarationNoColor(rule: Rule, s: string)
    requires rule.words == ["gl_FragColor"]
    requires s == "in vec4 " + "texMap" + ";"
    ensures Substitute(rule, s) == s
  {
    MissingCharacter(s, "gl_FragColor", 3);
    SubstituteAbsentWords(rule, s);
  }

  /** All four fragment rules run over the declaration; only the first two find anything. */
  lemma FragmentDeclarationLine(s: string)
    requires s == "varying vec4 texture;"
    ensures RewriteLine(FragmentRules, s) == "in vec4 " + "texMap" + ";"
  {
    FourRules(FragmentRules, s);
    VaryingRenamed(s);
    var s1 := Substitute(FragmentRules[0], s);
    DeclaredVariableRenamed(FragmentRules[1], s1);
    var s2 := Substitute(FragmentRules[1], s1);
    FragmentDeclarationNoTexture(FragmentRules[2], s2);
    FragmentDeclarationNoColor(FragmentRules[3], s2);
  }

  // ---------------------------------------------------------------------------
  // Fragment: `gl_FragColor = texture2D(texture);`
  // ---------------------------------------------------------------------------

  lemma UsedVariableBeforeCall(rule: Rule, s: string)
    requires rule.words == ["texture"]
    requires s == "gl_FragColor = " + "texture2D(" + "texture" + ");"
    ensures NoMatchBetween(rule, s, 0, 15)
  {
    assert s == "g" + "l_FragColor = t" + "exture2D(texture);";
    NoMatchWithin(rule, s, 0, 15, "g", "l_FragColor = t", "exture2D(texture);", 1);
  }

  lemma UsedVariableInsideCall(rule: Rule, s: string)
    requires rule.words == ["texture"]
    requires s == "gl_FragColor = " + "texture2D(" + "texture" + ");"
    ensures NoMatchBetween(rule, s, 16, 25)
  {
    assert s == "gl_FragColor = tex" + "ture2D(te" + "xture);";
    NoMatchWithin(rule, s, 16, 25, "gl_FragColor = tex", "ture2D(te", "xture);", 2);
  }

  lemma FragmentBodyGluedTexture(s: string)
    requires s == "gl_FragColor = " + "texture2D(" + "texture" + ");"
    ensures !MatchesAt(Identifier, s, 15, "texture")
  {
    assert IsWordChar(s[22]);
  }

  lemma UsedVariableAround(rule: Rule, s: string)
    requires rule == Rule(Identifier, ["texture"], "texMap")
    requires s == "gl_FragColor = " + "texture2D(" + "texture" + ");"
    ensures NoMatchBetween(rule, s, 0, 25) && NoMatchBetween(rule, s, 32, |s|)
  {
    UsedVariableBeforeCall(rule, s);
    UsedVariableInsideCall(rule, s);
    FragmentBodyGluedTexture(s);
    NoMatchAround(rule, s, 0, 15, 25);
    NoMatchWithin(rule, s, 32, |s|, "gl_FragColor = " + "texture2D(" + "texture", ");", "", 0);
  }

  lemma UsedVariableMatch(s: string)
    requires s == "gl_FragColor = " + "texture2D(" + "texture" + ");"
    ensures MatchesAt(Identifier, s, 25, "texture")
  {
    MatchesBetween(Identifier, s, "gl_FragColor = " + "texture2D(", "texture", ");");
  }

  /** The variable passed to `texture2D` is renamed; the `texture` inside `texture2D` is not. */
  lemma UsedVariableRenamed(rule: Rule, s: string)
    requires rule == Rule(Identifier, ["texture"], "texMap")
    requires s == "gl_FragColor = " + "texture2D(" + "texture" + ");"
    ensures Substitute(rule, s) == "gl_FragColor = " + "texture2D(" + "texMap" + ");"
  {
    UsedVariableAround(rule, s);
    UsedVariableMatch(s);
    SubstituteSingle(rule, s, "gl_FragColor = " + "texture2D(", "texture", ");", 0);
  }

  lemma FragmentCallBefore(rule: Rule, s: string)
    requires rule.words == TextureFunctions
    requires s == "gl_FragColor = " + "texture2D" + "(texMap);"
    ensures NoMatchBetween(rule, s, 0, 15)
  {
    assert s == "g" + "l_FragColor = t" + "exture2D(texMap);";
    NoMatchWithin(rule, s, 0, 15, "g", "l_FragColor = t", "exture2D(texMap);", 1);
  }

  lemma FragmentCallAfter(rule: Rule, s: string)
    requires rule.words == TextureFunctions
    requires s == "gl_FragColor = " + "texture2D" + "(texMap);"
    ensures NoMatchBetween(rule, s, 24, |s|)
  {
    assert s == "gl_FragColor = " + "texture2D(te" + "xMap);" + "";
    NoMatchWithin(rule, s, 24, |s|, "gl_FragColor = " + "texture2D(te", "xMap);", "", 3);
  }

  lemma FragmentCallMatch(s: string)
    requires s == "gl_FragColor = " + "texture2D" + "(texMap);"
    ensures MatchesAt(Call, s, 15, "texture2D") && !MatchesAt(Call, s, 15, "texture2DRect")
  {
    Mismatch(s, 15, "texture2DRect", 9);
    MatchesBetween(Call, s, "gl_FragColor = ", "texture2D", "(texMap);");
  }

  lemma FragmentCallRenamed(rule: Rule, s: string)
    requires rule == Rule(Call, TextureFunctions, "texture")
    requires s == "gl_FragColor = " + "texture2D(" + "texMap" + ");"
    ensures Substitute(rule, s) == "gl_FragColor = " + "texture" + "(texMap);"
  {
    assert s == "gl_FragColor = " + "texture2D" + "(texMap);";
    FragmentCallBefore(rule, s);
    FragmentCallAfter(rule, s);
    FragmentCallMatch(s);
    SubstituteSingle(rule, s, "gl_FragColor = ", "texture2D", "(texMap);", 1);
  }

  lemma FragColorAfter(rule: Rule, s: string)
    requires rule.words == ["gl_FragColor"]
    requires s == "" + "gl_FragColor" + " = texture(texMap);"
    ensures NoMatchBetween(rule, s, 12, |s|)
  {
    NoMatchWithin(rule, s, 12, |s|, "" + "gl_FragColor", " = texture(texMap);", "", 0);
  }

  lemma FragColorRenamed(rule: Rule, s: string)
    requires rule == Rule(Identifier, ["gl_FragColor"], "_fragColor")
    requires s == "gl_FragColor = " + "texture" + "(texMap);"
    ensures Substitute(rule, s) == "" + "_fragColor" + " = texture(texMap);"
  {
    assert s == "" + "gl_FragColor" + " = texture(texMap);";
    MatchesBetween(Identifier, s, "", "gl_FragColor", " = texture(texMap);");
    FragColorAfter(rule, s);
    SubstituteSingle(rule, s, "", "gl_FragColor", " = texture(texMap);", 0);
  }

  /** The declaration rule finds nothing in the body line. */
  lemma FragmentBodyNoDeclaration(rule: Rule, s: string)
    requires rule.words == ["varying", "attribute"]
    requires s == "gl_FragColor = " + "texture2D(" + "texture" + ");"
    ensures Substitute(rule, s) == s
  {
    forall w | w in rule.words
      ensures !Contains(s, w)
    {
      MissingCharacter(s, w, if w == "varying" then 3 else 5);
    }
    SubstituteAbsentWords(rule, s);
  }

  /** The last three fragment rules fire, each on the previous one's output. */
  lemma FragmentBodyLine(s: string)
    requires s == "gl_FragColor = " + "texture2D(" + "texture" + ");"
    ensures RewriteLine(FragmentRules, s) == "" + "_fragColor" + " = texture(texMap);"
  {
    FourRules(FragmentRules, s);
    FragmentBodyNoDeclaration(FragmentRules[0], s);
    UsedVariableRenamed(FragmentRules[1], s);
    var s2 := Substitute(FragmentRules[1], s);
    FragmentCallRenamed(FragmentRules[2], s2);
    var s3 := Substitute(FragmentRules[2], s2);
    FragColorRenamed(FragmentRules[3], s3);
  }

  /**
   * The two-line fragment shader, targeting OpenGL 4.1, comes out as GLSL 4.10
   * with the output declaration right after the version line, on the same line
   * as the first rewritten line.
   */
  lemma FragmentExample(source: string)
    requires source == "varying vec4 texture;" + "\n" + "gl_FragColor = " + "texture2D(" + "texture" + ");"
    ensures Preprocess(source, "fragment", "4.1")
         == Ok("#version 410\n" + "out vec4 _fragColor;" + "in vec4 texMap;\n" + "_fragColor = texture(texMap);\n")
  {
    var l1 := "varying vec4 texture;";
    var l2 := "gl_FragColor = " + "texture2D(" + "texture" + ");";
    FragmentSourceLines(source);
    FragmentDeclarationLine(l1);
    FragmentBodyLine(l2);
    TargetVersionLine("4.1", 410);
    TwoLineResult(source, "4.1", "fragment", FragmentRules, l1, l2);
    FragmentAssembly(VersionLine(410), RewriteLine(FragmentRules, l1), RewriteLine(FragmentRules, l2));
  }

  lemma FragmentSourceLines(source: string)
    requires source == "varying vec4 texture;" + "\n" + "gl_FragColor = " + "texture2D(" + "texture" + ");"
    ensures Split(source) == ["varying vec4 texture;", "gl_FragColor = " + "texture2D(" + "texture" + ");"]
    ensures !Contains(source, "#version")
  {
    SourceOfTwoLines(source, "varying vec4 texture;", "gl_FragColor = " + "texture2D(" + "texture" + ");");
    FragmentSourceUnversioned(source);
  }

  lemma FragmentSourceUnversioned(source: string)
    requires source == "varying vec4 texture;" + "\n" + "gl_FragColor = " + "texture2D(" + "texture" + ");"
    ensures !Contains(source, "#version")
  {
    MissingCharacter(source, "#version", 0);
  }

  lemma FragmentAssembly(v: string, r1: string, r2: string)
    requires v == "#version 410\n"
    requires r1 == "in vec4 " + "texMap" + ";"
    requires r2 == "" + "_fragColor" + " = texture(texMap);"
    ensures v + StagePreamble("fragment") + (r1 + "\n" + r2 + "\n")
         == "#version 410\n" + "out vec4 _fragColor;" + "in vec4 texMap;\n" + "_fragColor = texture(texMap);\n"
  {
  }

  // ---------------------------------------------------------------------------
  // Assembling a two-line source
  // ---------------------------------------------------------------------------

  /** The version label resolves to GLSL version `n`, whose first line is `#version n`. */
  lemma TargetVersionLine(version: string, n: nat)
    requires (version == "3.3" && n == 330) || (version == "4.1" && n == 410)
    ensures version in GlslVersions && GlslVersions[version] == n && n >= FirstModernGlsl
    ensures n == 330 ==> VersionLine(n) == "#version 330\n"
    ensures n == 410 ==> VersionLine(n) == "#version 410\n"
  {
    assert Decimal(330) == "330";
    assert Decimal(410) == "410";
  }

  /** A source made of two newline-free lines splits into exactly those two. */
  lemma SourceOfTwoLines(source: string, l1: string, l2: string)
    requires source == l1 + "\n" + l2
    requires '\n' !in l1 && '\n' !in l2
    ensures Split(source) == [l1, l2]
  {
    assert Join([l1, l2]) == l1 + "\n" + Join([l2]);
    SplitJoin([l1, l2]);
  }

  /** The result for a two-line source with no `#version`, for a modern target and a supported stage. */
  lemma TwoLineResult(source: string, version: string, stage: string, rules: seq<Rule>, l1: string, l2: string)
    requires version in GlslVersions && GlslVersions[version] >= FirstModernGlsl
    requires !Contains(source, "#version")
    requires StageRules(stage) == Some(rules)
    requires Split(source) == [l1, l2]
    ensures Preprocess(source, stage, version)
         == Ok(VersionLine(GlslVersions[version]) + StagePreamble(stage)
               + (RewriteLine(rules, l1) + "\n" + RewriteLine(rules, l2) + "\n"))
  {
    BodyOfTwo(rules, l1, l2);
  }

  lemma BodyOfTwo(rules: seq<Rule>, l1: string, l2: string)
    ensures Body(rules, [l1, l2]) == RewriteLine(rules, l1) + "\n" + RewriteLine(rules, l2) + "\n"
  {
    var lines := [l1, l2];
    assert Body(rules, lines[..1]) == RewriteLine(rules, l1) + "\n" by {
      assert lines[..1][..0] == [];
    }
  }
}
