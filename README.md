# Shader source preprocessor and shader objects, modelled in Dafny

This project models the shader layer of p5, a Python port of Processing
(`p5/opengl/shader.py`). It has two parts.

**The preprocessor.** `preprocess_shader` takes GLSL source written for the old
(pre-3.0) dialect, a stage name and an OpenGL version label. It does these steps
in order:

1. Resolve the label through the `GLSL_VERSIONS` table.
2. Return the source unchanged if it already mentions `#version` anywhere.
3. Otherwise prepend `#version N` and a newline.
4. If the target is GLSL 1.30 or later, rewrite the legacy names line by line.
   Each stage has a fixed, ordered list of whole-word rules:
   - `varying`/`attribute` become `out`/`in`;
   - a variable called `texture` becomes `texMap`;
   - calls to `texture2D` and its siblings become `texture`;
   - in fragment shaders only, `gl_FragColor` becomes `_fragColor`, declared right after the version line.

The model has two layers. The first is a pure specification, `Preprocessor.Preprocess`.
The second is the loop `preprocess_shader` actually runs: `PreprocessShader` and `ApplyPatterns`,
proved equal to the specification. There is no general regular-expression engine.
Each rule is one of the two pattern shapes `preprocess_shader` uses:
- an identifier not preceded by `[0-9A-Za-z_]` and not followed by `[0-9A-Za-z_]` or by optional whitespace and `(`;
- the same name in call position only.

Each rule makes one left-to-right, non-overlapping pass. Its lookarounds read the line as it was before that rule ran.

Two worked shaders are pushed through the rules, one rule at a time:
- a vertex shader `attribute vec3 position;` / `gl_Position = texture2D(position);`, targeting OpenGL 3.3, comes out as `#version 330`, `in vec3 position;`, `gl_Position = texture(position);`;
- a fragment shader `varying vec4 texture;` / `gl_FragColor = texture2D(texture);`, targeting OpenGL 4.1, comes out as `#version 410`, `out vec4 _fragColor;in vec4 texMap;`, `_fragColor = texture(texMap);`. The variable `texture` is renamed, the call `texture2D` is not taken for it, and the call becomes `texture` without being renamed again.

**The shader objects.**
- A `Shader` holds its stage, its (preprocessed) source and a native handle. The handle is unset until `Compile`, and `Sid` fails while the handle is unset or zero.
- A `ShaderProgram` holds its program handle and a registry from uniform name to (name, location, setter). `AddUniform` checks the declared type before it touches the registry. `UpdateUniform` fails for an unregistered name; otherwise it produces the setter's graphics call at the stored location with the given data. `Attach` reads the shader's handle, so an uncompiled shader cannot be attached.

The graphics context is never modelled:
- the handles and locations it returns are parameters (`glCreateShader`, `glGetUniformLocation`, the program handle);
- the calls this layer makes into it are returned as `GlCall` values.

Behaviours of `p5/opengl/shader.py` worth knowing:
- A fragment shader's `out vec4 _fragColor;` has no newline after it, so the first rewritten line continues on the same line.
- Every rewritten line is followed by a newline, including the last one. The result therefore ends with one more newline than a plain join of the lines would give.
- The stage is checked only on the rewriting path. With a source that mentions `#version`, or a target below GLSL 1.30 (the `Shader` default label `2.0` is GLSL 1.10), any stage is accepted. Such a shader then fails in `Compile`, where the stage-to-enum lookup fails.
- With `preprocess=False` the source is stored exactly as given, and construction never fails, whatever the stage or the version label.
- `Compile` stores a new handle every time it is called, not only the first time. `Sid` also fails when the stored handle is zero, because `Shader.sid` tests the handle for truthiness.

## Model

| member | source | states |
|---|---|---|
| `Text.ContainsIff` | p5/opengl/shader.py:59 | the `"#version" in shader_source` test holds exactly when some position of the source holds an occurrence |
| `Text.OccursAtIff` | p5/opengl/shader.py:59 | the character-by-character occurrence test agrees with comparing the slice at that position |
| `Text.Split` | p5/opengl/shader.py:104 | `split('\n')` yields at least one piece, and no piece holds a newline |
| `Text.JoinSplit` | p5/opengl/shader.py:104 | joining the pieces of the split with newlines gives back the source |
| `Text.SplitJoin` | p5/opengl/shader.py:104 | splitting a join of newline-free lines gives back exactly those lines |
| `Text.Decimal` | p5/opengl/shader.py:62 | the version number is written as decimal digits with no leading zero |
| `Text.DecimalRoundTrip` | p5/opengl/shader.py:62 | reading the written digits back gives the version number |
| `Preprocessor.MatchesAt` | p5/opengl/shader.py:77-78 | a match of one name at a position is that name standing there, not glued to a word character on its left, and, for an identifier, not on its right either |
| `Preprocessor.FirstMatch` | p5/opengl/shader.py:77-78 | an alternation picks the first alternative, in pattern order, whose lookbehind and lookahead both hold; no alternative is chosen exactly when none matches |
| `Preprocessor.Substitute` | p5/opengl/shader.py:107 | one `re.sub` pass copies a line on which the pattern matches nowhere verbatim, and puts no newline into a line when the replacement has none |
| `Preprocessor.SubstituteSkips` | p5/opengl/shader.py:107 | text before the leftmost match is copied unchanged by a substitution pass |
| `Preprocessor.SubstituteNextMatch` | p5/opengl/shader.py:107 | a pass is the text up to the leftmost match, the replacement, then the pass resumed after the match |
| `Preprocessor.SubstituteAbsentWords` | p5/opengl/shader.py:107 | a line containing none of the searched names is copied verbatim |
| `Preprocessor.SubstituteFromNoNewline` | p5/opengl/shader.py:107 | a pass never introduces a newline into a line |
| `Preprocessor.RewriteLineAbsentWords` | p5/opengl/shader.py:105-107 | a line holding none of the names any rule searches for comes out of all rules unchanged |
| `Preprocessor.RewriteLineNoNewline` | p5/opengl/shader.py:105-107 | running all rules over a line keeps it free of newlines |
| `Preprocessor.BodyIsJoin` | p5/opengl/shader.py:104-108 | the emitted body is the rewritten lines joined by newlines, with a newline after the last |
| `Preprocessor.VersionTable` | p5/opengl/shader.py:27-29 | exactly the labels `2.0` and `2.1` resolve below GLSL 1.30 and skip the rewriting; no two labels share a GLSL version |
| `Preprocessor.VersionLine` | p5/opengl/shader.py:62 | the first line is `#version `, the GLSL number in decimal and a newline, with no other newline |
| `Preprocessor.StageRules` | p5/opengl/shader.py:86-102 | only `vertex` and `fragment` have rules, four each, and no replacement holds a newline |
| `Preprocessor.StagePreamble` | p5/opengl/shader.py:100 | only a fragment shader gains a declaration after the version line, and it ends without a newline |
| `Preprocessor.Preprocess` | p5/opengl/shader.py:53-110 | the only failures are the unknown label and the unsupported stage, and every successful result contains `#version` |
| `Preprocessor.ApplyPatterns` | p5/opengl/shader.py:105-107 | the inner loop leaves the line rewritten by every rule in list order |
| `Preprocessor.PreprocessShader` | p5/opengl/shader.py:31-110 | the loop-based preprocessor returns or fails exactly as the specification `Preprocess` does |
| `PreprocessorProperties.UnknownVersionFailsFirst` | p5/opengl/shader.py:53 | an unknown label fails, whatever the source and the stage |
| `PreprocessorProperties.VersionedSourceUntouched` | p5/opengl/shader.py:59-60 | a source mentioning `#version` is returned unchanged for any stage |
| `PreprocessorProperties.LegacyTargetOnlyPrepends` | p5/opengl/shader.py:62-69 | below GLSL 1.30 the result is exactly `#version N`, a newline and the source, with no stage check |
| `PreprocessorProperties.UnsupportedStageIff` | p5/opengl/shader.py:86-102 | the stage is rejected exactly when the label is known, the source has no `#version`, the target is at least GLSL 1.30 and the stage is neither `vertex` nor `fragment` |
| `PreprocessorProperties.DefaultVersionAcceptsAnyStage` | p5/opengl/shader.py:165-170 | with the default label `2.0` preprocessing succeeds for every stage |
| `Preprocessor.VersionLineDeclaresVersion` | p5/opengl/shader.py:59-62 | text that begins with the version line contains `#version`, so it would be left alone by a second run |
| `Preprocessor.HeaderDeclaresVersion` | p5/opengl/shader.py:100 | so does text that begins with the version line and the fragment declaration |
| `PreprocessorProperties.OutputBeginsWithVersionLine` | p5/opengl/shader.py:59-69 | unless the shader text already mentioned `#version`, every successful result begins with the `#version N` line of its target |
| `PreprocessorProperties.PreprocessIdempotent` | p5/opengl/shader.py:59-62 | preprocessing a result again, for any stage and known label, returns it unchanged |
| `PreprocessorProperties.ModernLayout` | p5/opengl/shader.py:100-108 | the result is the version line, the stage's declaration with no newline after it, then the rewritten lines each followed by a newline; splitting that body gives the rewritten lines in order and one empty piece |
| `PreprocessorProperties.LineContainsOnlySource` | p5/opengl/shader.py:104 | whatever occurs in one line of the split occurs in the source |
| `PreprocessorProperties.UnmatchedSourceGainsOnlyHeader` | p5/opengl/shader.py:100-110 | a source holding none of the stage's searched names comes back as the header, the source verbatim and one newline |
| `PreprocessorProperties.StageRuleOrder` | p5/opengl/shader.py:86-99 | vertex applies `varying`→`out`, `attribute`→`in`, `texture`→`texMap`, then the texture calls→`texture`; fragment applies `varying\|attribute`→`in`, `texture`→`texMap`, the texture calls→`texture`, then `gl_FragColor`→`_fragColor` |
| `PreprocessorProperties.TextureFunctionsContainTexture` | p5/opengl/shader.py:91 | every texture lookup name begins with `texture`, so a line holding one holds `texture` |
| `PreprocessorProperties.FragColorRenamedOnlyForFragment` | p5/opengl/shader.py:86-99 | on a line without the other legacy names, the vertex rules change nothing, while the fragment rules apply exactly the `gl_FragColor` rule |
| `RewriteExamples.VertexDeclarationLine` | p5/opengl/shader.py:86-107 | the vertex rules turn `attribute vec3 position;` into `in vec3 position;` |
| `RewriteExamples.TextureCallNotAVariable` | p5/opengl/shader.py:77-90 | the `texture` variable rule leaves the call `texture2D(` alone |
| `RewriteExamples.TextureCallRenamed` | p5/opengl/shader.py:78-91 | the call rule turns `texture2D(` into `texture(` |
| `RewriteExamples.VertexBodyLine` | p5/opengl/shader.py:86-107 | the vertex rules turn `gl_Position = texture2D(position);` into `gl_Position = texture(position);` |
| `RewriteExamples.VertexExample` | p5/opengl/shader.py:53-110 | the two-line vertex shader targeting OpenGL 3.3 comes out as `#version 330`, `in vec3 position;` and `gl_Position = texture(position);`, each line ending in a newline |
| `RewriteExamples.VaryingRenamed` | p5/opengl/shader.py:95 | the fragment declaration rule turns `varying` into `in` |
| `RewriteExamples.DeclaredVariableRenamed` | p5/opengl/shader.py:96 | the variable `texture` in a declaration becomes `texMap` |
| `RewriteExamples.FragmentDeclarationLine` | p5/opengl/shader.py:93-107 | the fragment rules turn `varying vec4 texture;` into `in vec4 texMap;` |
| `RewriteExamples.UsedVariableRenamed` | p5/opengl/shader.py:77-96 | the argument `texture` of a `texture2D` call becomes `texMap`, while the `texture` inside `texture2D` does not |
| `RewriteExamples.FragmentCallRenamed` | p5/opengl/shader.py:78-97 | the call `texture2D(texMap)` becomes `texture(texMap)` |
| `RewriteExamples.FragColorRenamed` | p5/opengl/shader.py:98 | `gl_FragColor` becomes `_fragColor` |
| `RewriteExamples.FragmentBodyLine` | p5/opengl/shader.py:93-107 | the fragment rules turn `gl_FragColor = texture2D(texture);` into `_fragColor = texture(texMap);`, the call renamed once and not again by the variable rule |
| `RewriteExamples.FragmentExample` | p5/opengl/shader.py:53-110 | the two-line fragment shader targeting OpenGL 4.1 comes out as `#version 410`, then `out vec4 _fragColor;` directly followed by `in vec4 texMap;`, then `_fragColor = texture(texMap);`, each line ending in a newline |
| `Shaders.UniformFunction.Apply` | p5/opengl/shader.py:134-139 | the vector setter issues the 4-float call, the matrix setter one 4x4 matrix call, untransposed; both at the given location with the data as given |
| `Shaders.UniformSetterByType` | p5/opengl/shader.py:134-144 | only `vec4` and `mat4` have setters: `vec4` issues the 4-float call, `mat4` one untransposed 4x4 matrix call |
| `Shaders.CompilableStagesAreRewritten` | p5/opengl/shader.py:160-163 | the stages with a shader type are exactly the stages the preprocessor has rules for, and the two types differ |
| `Shaders.Shader.Init` | p5/opengl/shader.py:165-172 | a new shader keeps its stage and stored source and has no handle |
| `Shaders.Shader.New` | p5/opengl/shader.py:165-172 | construction fails exactly when preprocessing is requested and fails, with that failure; otherwise it stores the preprocessed or raw source, the stage and no handle |
| `Shaders.Shader.Compile` | p5/opengl/shader.py:174-177 | an unsupported stage fails and leaves the handle alone; otherwise the handle becomes what the graphics context returns for the stage's shader type |
| `Shaders.Shader.Sid` | p5/opengl/shader.py:209-220 | the handle is returned exactly when one has been stored and is non-zero; otherwise the not-created failure |
| `Shaders.ShaderProgram.constructor` | p5/opengl/shader.py:248-250 | a new program holds the created handle and an empty registry |
| `Shaders.ShaderProgram.AddUniform` | p5/opengl/shader.py:257-272 | an unknown data type fails with the registry unchanged; otherwise the name maps to (name, its location in this program, the type's setter), replacing any earlier entry, and every entry stays filed under its own name |
| `Shaders.ShaderProgram.UpdateUniform` | p5/opengl/shader.py:274-285 | an unregistered name fails; otherwise the result is exactly the registered setter's call at the stored location with the given data, so a `mat4` entry gives one untransposed matrix call |
| `Shaders.ShaderProgram.Attach` | p5/opengl/shader.py:287-293 | attaching succeeds exactly when the shader's handle can be read, and attaches that handle to this program |
| `Shaders.ShaderLifecycle` | p5/opengl/shader.py:165-220 | a default-built vertex shader reports not-created before compiling, the graphics handle afterwards, and can then be attached |
| `Shaders.UniformRoundTrip` | p5/opengl/shader.py:257-285 | after registering `fill_color` as `vec4`, updating it issues the 4-float call at its location with the data; updating `missing` fails |

## Left out

- The debug flag and the compile log: reading the compile status and info log and printing them. This is console output and only advisory; it never changes the outcome.
- Handing the source to the graphics context in `Compile` (`glShaderSource`, `glCompileShader`, and the `ctypes` encoding and pointer casts): foreign-memory plumbing with no effect on the object's state.
- `Shader.create_from_file`: file input.
- `ShaderProgram.pid`, `link`, `activate`, `deactivate`, `__repr__`/`__str__`. Each is a single opaque graphics call, a field read or a string rendering, and holds no state of the object.
- The `vertex_default` and `fragment_default` sample sources.
- Python's general regular-expression engine. Only the two pattern shapes the preprocessor uses are modelled. `\s` is the fixed set of characters for which `str.isspace()` holds.
- Shaders.ShaderProgram.UpdateUniform: the values are passed through unread, so it does not model the failures the setters raise for data of the wrong arity: `glUniform4f` with other than four values, or more than sixteen values for the matrix.
- Shaders.UniformFunction.Apply: the matrix setter copies its values into a 16-float buffer, which zero-fills a matrix of fewer than sixteen values; the model passes the values through as given.
- Shaders.ShaderProgram.AddUniform: the name is passed to the location query as a string, without the byte encoding `add_uniform` applies.
- Shaders.Shader.Compile: the graphics context's handle is modelled as a function of the requested shader type; a real context hands out a fresh handle on every call.
