/**
 * What the preprocessor guarantees about its result: the order of its checks,
 * the opt-out for versioned sources, the untouched legacy path, the header and
 * line layout of the rewritten path, and that its output is a fixed point.
 */
module PreprocessorProperties {
  import opened Outcomes
  import opened Text
  import opened Preprocessor

  // ---------------------------------------------------------------------------
  // The order of the checks
  // ---------------------------------------------------------------------------

  /** The version label is resolved first: an unknown one fails whatever the source and stage. */
  lemma UnknownVersionFailsFirst(source: string, stage: string, version: string)
    requires version !in GlslVersions
    ensures Preprocess(source, stage, version) == Err(UnknownVersion(version))
  {
  }

  /** A source that mentions `#version` anywhere comes back unchanged, whatever the stage. */
  lemma VersionedSourceUntouched(source: string, stage: string, version: string)
    requires version in GlslVersions
    requires Contains(source, "#version")
    ensures Preprocess(source, stage, version) == Ok(source)
  {
  }

  /** Below GLSL 1.30 the result is the version line followed by the source, for any stage. */
  lemma LegacyTargetOnlyPrepends(source: string, stage: string, version: string)
    requires version in GlslVersions && GlslVersions[version] < FirstModernGlsl
    requires !Contains(source, "#version")
    ensures Preprocess(source, stage, version) == Ok(VersionLine(GlslVersions[version]) + source)
  {
  }

  /**
   * The stage is rejected exactly when the label is known, the source carries no
   * `#version`, the target is GLSL 1.30 or later and the stage is neither
   * `vertex` nor `fragment`.
   */
  lemma UnsupportedStageIff(source: string, stage: string, version: string)
    ensures Preprocess(source, stage, version) == Err(UnsupportedStage(stage))
        <==> && version in GlslVersions
             && !Contains(source, "#version")
             && GlslVersions[version] >= FirstModernGlsl
             && stage != "vertex" && stage != "fragment"
  {
  }

  /** A shader built with the default label `2.0` (GLSL 1.10) accepts any stage. */
  lemma DefaultVersionAcceptsAnyStage(source: string, stage: string)
    ensures Preprocess(source, stage, "2.0").Ok?
  {
  }

  // ---------------------------------------------------------------------------
  // The header, and preprocessing twice
  // ---------------------------------------------------------------------------

  /**
   * Unless the source already mentioned `#version`, a successful result begins
   * with the synthesised `#version N` line.
   */
  lemma OutputBeginsWithVersionLine(source: string, stage: string, version: string)
    requires Preprocess(source, stage, version).Ok?
    requires !Contains(source, "#version")
    ensures OccursAt(Preprocess(source, stage, version).value, 0, VersionLine(GlslVersions[version]))
  {
    var n := GlslVersions[version];
    if n < FirstModernGlsl {
      OccursAtStart(VersionLine(n), source);
    } else {
      var rules := StageRules(stage).value;
      HeaderAtStart(VersionLine(n), StagePreamble(stage), Body(rules, Split(source)));
    }
  }

  lemma HeaderAtStart(v: string, preamble: string, rest: string)
    ensures OccursAt(v + preamble + rest, 0, v)
  {
    OccursAtStart(v, preamble + rest);
    assert v + (preamble + rest) == v + preamble + rest;
  }

  /** Preprocessing a result again, for any stage and any known label, changes nothing. */
  lemma PreprocessIdempotent(source: string, stage: string, version: string, out: string, stage': string, version': string)
    requires Preprocess(source, stage, version) == Ok(out)
    requires version' in GlslVersions
    ensures Preprocess(out, stage', version') == Ok(out)
  {
  }

  // ---------------------------------------------------------------------------
  // Line layout of the rewritten path
  // ---------------------------------------------------------------------------

  /**
   * For GLSL 1.30 and later and a supported stage, the result is the version
   * line, the stage's extra declaration (directly followed by the first
   * rewritten line), then every source line, rewritten on its own, each
   * followed by a newline: splitting that body on newlines gives the rewritten
   * lines, in order, and one empty piece after the final newline.
   */
  lemma ModernLayout(source: string, stage: string, version: string, rules: seq<Rule>)
    requires version in GlslVersions && GlslVersions[version] >= FirstModernGlsl
    requires !Contains(source, "#version")
    requires StageRules(stage) == Some(rules)
    ensures var body := Join(RewriteAll(rules, Split(source))) + "\n";
            && Preprocess(source, stage, version) == Ok(VersionLine(GlslVersions[version]) + StagePreamble(stage) + body)
            && Split(body) == RewriteAll(rules, Split(source)) + [""]
  {
    var lines := Split(source);
    var out := RewriteAll(rules, lines);
    BodyIsJoin(rules, lines);
    JoinSnoc(out, "");
    assert Join(out + [""]) == Join(out) + "\n";
    forall k | 0 <= k < |out + [""]|
      ensures '\n' !in (out + [""])[k]
    {
      if k < |out| {
        RewriteLineNoNewline(rules, lines[k]);
      }
    }
    SplitJoin(out + [""]);
  }

  lemma {:induction false} JoinFactor(lines: seq<string>, k: nat)
    requires k < |lines|
    ensures exists a, b :: Join(lines) == a + lines[k] + b
    decreases |lines|
  {
    if k == 0 {
      if |lines| == 1 {
        assert Join(lines) == [] + lines[0] + [];
      } else {
        assert Join(lines) == [] + lines[0] + ("\n" + Join(lines[1..]));
      }
    } else {
      JoinFactor(lines[1..], k - 1);
      var a, b :| Join(lines[1..]) == a + lines[1..][k - 1] + b;
      assert Join(lines) == (lines[0] + "\n" + a) + lines[k] + b;
    }
  }

  lemma ContainsInFactor(a: string, x: string, b: string, w: string)
    requires Contains(x, w)
    ensures Contains(a + x + b, w)
  {
    ContainsIff(x, w);
    var i :| 0 <= i <= |x| && OccursAt(x, i, w);
    var s := a + x + b;
    OccursAtIff(x, i, w);
    assert s[|a| + i..|a| + i + |w|] == x[i..i + |w|];
    OccursAtIff(s, |a| + i, w);
    ContainsIff(s, w);
  }

  /** Whatever occurs inside one line of the source occurs in the source. */
  lemma LineContainsOnlySource(source: string, k: nat, w: string)
    requires k < |Split(source)|
    requires Contains(Split(source)[k], w)
    ensures Contains(source, w)
  {
    JoinSplit(source);
    JoinFactor(Split(source), k);
    var a, b :| Join(Split(source)) == a + Split(source)[k] + b;
    ContainsInFactor(a, Split(source)[k], b, w);
  }

  /**
   * A source holding none of the words the stage's rules search for gains only
   * the header: its text follows unchanged, with one newline appended.
   */
  lemma UnmatchedSourceGainsOnlyHeader(source: string, stage: string, version: string, rules: seq<Rule>)
    requires version in GlslVersions && GlslVersions[version] >= FirstModernGlsl
    requires !Contains(source, "#version")
    requires StageRules(stage) == Some(rules)
    requires forall r, w :: r in rules && w in r.words ==> !Contains(source, w)
    ensures Preprocess(source, stage, version)
         == Ok(VersionLine(GlslVersions[version]) + StagePreamble(stage) + source + "\n")
  {
    var lines := Split(source);
    forall k | 0 <= k < |lines|
      ensures RewriteAll(rules, lines)[k] == lines[k]
    {
      forall r, w | r in rules && w in r.words
        ensures !Contains(lines[k], w)
      {
        if Contains(lines[k], w) {
          LineContainsOnlySource(source, k, w);
        }
      }
      RewriteLineAbsentWords(rules, lines[k]);
    }
    assert RewriteAll(rules, lines) == lines;
    ModernLayout(source, stage, version, rules);
    JoinSplit(source);
    var header := VersionLine(GlslVersions[version]) + StagePreamble(stage);
    assert header + (Join(lines) + "\n") == header + source + "\n";
  }

  // ---------------------------------------------------------------------------
  // The rules of each stage
  // ---------------------------------------------------------------------------

  /** Each stage's rules run in the fixed order `preprocess_shader` lists them in, each on the previous one's output. */
  lemma StageRuleOrder(line: string)
    ensures RewriteLine(VertexRules, line)
         == Substitute(Rule(Call, TextureFunctions, "texture"),
              Substitute(Rule(Identifier, ["texture"], "texMap"),
                Substitute(Rule(Identifier, ["attribute"], "in"),
                  Substitute(Rule(Identifier, ["varying"], "out"), line))))
    ensures RewriteLine(FragmentRules, line)
         == Substitute(Rule(Identifier, ["gl_FragColor"], "_fragColor"),
              Substitute(Rule(Call, TextureFunctions, "texture"),
                Substitute(Rule(Identifier, ["texture"], "texMap"),
                  Substitute(Rule(Identifier, ["varying", "attribute"], "in"), line))))
  {
    FourRules(VertexRules, line);
    FourRules(FragmentRules, line);
  }

  lemma FourRules(rules: seq<Rule>, line: string)
    requires |rules| == 4
    ensures RewriteLine(rules, line)
         == Substitute(rules[3], Substitute(rules[2], Substitute(rules[1], Substitute(rules[0], line))))
  {
    var l1 := Substitute(rules[0], line);
    var l2 := Substitute(rules[1], l1);
    var l3 := Substitute(rules[2], l2);
    var l4 := Substitute(rules[3], l3);
    assert RewriteLine(rules[1..][1..][1..][1..], l4) == l4;
    assert RewriteLine(rules[1..][1..][1..], l3) == l4;
    assert RewriteLine(rules[1..][1..], l2) == l4;
    assert RewriteLine(rules[1..], l1) == l4;
  }

  lemma {:induction false} OccursFromPrefix(s: string, i: nat, t: string, u: string, k: nat)
    requires |u| <= |t| && t[..|u|] == u
    requires OccursFrom(s, i, t, k)
    ensures OccursFrom(s, i, u, k)
    decreases |t| - k
  {
    if k < |u| {
      assert u[k] == t[..|u|][k];
      OccursFromPrefix(s, i, t, u, k + 1);
    }
  }

  /** Every texture-lookup function name begins with `texture`, so it occurs wherever they do. */
  lemma TextureFunctionsContainTexture(s: string, w: Word)
    requires w in TextureFunctions
    requires Contains(s, w)
    ensures Contains(s, "texture")
  {
    assert w[..7] == "texture";
    ContainsIff(s, w);
    var i :| 0 <= i <= |s| && OccursAt(s, i, w);
    OccursFromPrefix(s, i, w, "texture", 0);
    assert OccursAt(s, i, "texture");
    ContainsIff(s, "texture");
  }

  /**
   * Only the fragment stage renames `gl_FragColor`: on a line without the other
   * legacy names the vertex rules change nothing, while the fragment rules
   * apply exactly the `gl_FragColor` rule.
   */
  lemma FragColorRenamedOnlyForFragment(line: string)
    requires !Contains(line, "varying") && !Contains(line, "attribute") && !Contains(line, "texture")
    ensures RewriteLine(VertexRules, line) == line
    ensures RewriteLine(FragmentRules, line) == Substitute(Rule(Identifier, ["gl_FragColor"], "_fragColor"), line)
  {
    forall w | w in TextureFunctions
      ensures !Contains(line, w)
    {
      if Contains(line, w) {
        TextureFunctionsContainTexture(line, w);
      }
    }
    StageRuleOrder(line);
    SubstituteAbsentWords(Rule(Identifier, ["varying"], "out"), line);
    SubstituteAbsentWords(Rule(Identifier, ["attribute"], "in"), line);
    SubstituteAbsentWords(Rule(Identifier, ["texture"], "texMap"), line);
    SubstituteAbsentWords(Rule(Call, TextureFunctions, "texture"), line);
    SubstituteAbsentWords(Rule(Identifier, ["varying", "attribute"], "in"), line);
  }
}
