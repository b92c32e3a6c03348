/**
 * The runtime wrappers around graphics-context objects: a `Shader` whose native
 * handle is unset until it is compiled, and a `ShaderProgram` that keeps a
 * registry of uniforms and turns an update of one into the matching graphics
 * call. Every call into the graphics context is opaque here: the handles and
 * locations it hands back are parameters, and the calls this layer issues are
 * returned as `GlCall` values.
 */
module Shaders {
  import opened Outcomes
  import opened Preprocessor

  /** Stage name to the shader-type enum passed to `glCreateShader`. */
  const SupportedShaderTypes: map<string, nat> := map["vertex" := 0x8B31, "fragment" := 0x8B30]

  /** The values a uniform is set to; passed through to the graphics context unread. */
  type UniformData = seq<real>

  /** A call this layer makes into the graphics context. */
  datatype GlCall =
    | AttachShader(program: nat, shader: nat)
    | Uniform4f(location: int, values: UniformData)
    | UniformMatrix4fv(location: int, count: nat, transpose: bool, values: UniformData)

  /** The two setters a uniform can be registered with. */
  datatype UniformFunction = UniformVec4 | UniformMat4 {
    /** The graphics call that sets the uniform at `location` to `data`. */
    function Apply(location: int, data: UniformData): (call: GlCall)
      ensures !call.AttachShader? && call.location == location && call.values == data
      ensures call.Uniform4f? <==> this == UniformVec4
      ensures call.UniformMatrix4fv? ==> call.count == 1 && !call.transpose
    {
      match this
      case UniformVec4 => Uniform4f(location, data)
      case UniformMat4 => UniformMatrix4fv(location, 1, false, data)
    }
  }

  /** Declared data type of a uniform to its setter. */
  const UniformFunctionMap: map<string, UniformFunction> := map["vec4" := UniformVec4, "mat4" := UniformMat4]

  /**
   * Only `vec4` and `mat4` uniforms can be registered: a `vec4` is set with
   * the four-float call, a `mat4` with one untransposed 4x4 matrix call.
   */
  lemma UniformSetterByType(dtype: string, location: int, data: UniformData)
    ensures dtype in UniformFunctionMap <==> dtype == "vec4" || dtype == "mat4"
    ensures dtype == "vec4" ==> UniformFunctionMap[dtype].Apply(location, data) == Uniform4f(location, data)
    ensures dtype == "mat4" ==> UniformFunctionMap[dtype].Apply(location, data) == UniformMatrix4fv(location, 1, false, data)
  {
  }

  /**
   * The stages `Compile` knows a shader type for are exactly the stages the
   * preprocessor has rewrite rules for, and the two types differ.
   */
  lemma CompilableStagesAreRewritten(stage: string)
    ensures stage in SupportedShaderTypes <==> StageRules(stage).Some?
    ensures SupportedShaderTypes["vertex"] != SupportedShaderTypes["fragment"]
  {
  }

  /** A registered uniform: its name, its location in the program and its setter. */
  datatype ShaderUniform = ShaderUniform(name: string, uid: int, updater: UniformFunction)

  class Shader {
    const kind: string
    const source: string
    /** The native handle; `None` until `Compile`. */
    var id: Option<nat>

    /** The fields as the initialiser leaves them once the stored source is settled. */
    constructor Init(kind: string, source: string)
      ensures this.kind == kind && this.source == source && id == None
    {
      this.kind := kind;
      this.source := source;
      id := None;
    }

    /**
     * Builds a shader of stage `kind`, storing the preprocessed source when
     * `preprocess` is set and the source as given otherwise. A preprocessing
     * failure is the only failure; without preprocessing any stage is accepted.
     */
    static method New(source: string, kind: string, version: string := "2.0", preprocess: bool := true)
      returns (r: Result<Shader>)
      ensures r.Ok? <==> !preprocess || Preprocess(source, kind, version).Ok?
      ensures r.Err? ==> r == Err(Preprocess(source, kind, version).error)
      ensures r.Ok? ==> fresh(r.value) && r.value.kind == kind && r.value.id == None
      ensures r.Ok? ==> r.value.source == if preprocess then Preprocess(source, kind, version).value else source
    {
      var text := source;
      if preprocess {
        text :- PreprocessShader(source, kind, version);
      }
      var shader := new Shader.Init(kind, text);
      return Ok(shader);
    }

    /**
     * Looks up the shader-type enum of the stage, which fails for a stage other
     * than `vertex` or `fragment`, and stores the handle the graphics context
     * returns for it.
     */
    method Compile(glCreateShader: nat -> nat) returns (r: Result<()>)
      modifies this`id
      ensures kind in SupportedShaderTypes ==> r == Ok(()) && id == Some(glCreateShader(SupportedShaderTypes[kind]))
      ensures kind !in SupportedShaderTypes ==> r == Err(UnknownShaderKind(kind)) && id == old(id)
    {
      if kind !in SupportedShaderTypes {
        return Err(UnknownShaderKind(kind));
      }
      var shaderType := SupportedShaderTypes[kind];
      id := Some(glCreateShader(shaderType));
      return Ok(());
    }

    /** The handle, which exists only once a compile has stored a non-zero one. */
    function Sid(): (r: Result<nat>)
      reads this
      ensures r.Ok? <==> id.Some? && id.value != 0
      ensures r.Ok? ==> id == Some(r.value)
      ensures r.Err? ==> r.error == ShaderNotCreated
    {
      if id.Some? && id.value != 0 then Ok(id.value) else Err(ShaderNotCreated)
    }
  }

  class ShaderProgram {
    const pid: nat
    var uniforms: map<string, ShaderUniform>

    /** Every registry entry is filed under its own name. */
    ghost predicate Valid()
      reads this
    {
      forall name :: name in uniforms ==> uniforms[name].name == name
    }

    /** A program around the handle `glCreateProgram` returned, with no uniforms. */
    constructor (createdProgram: nat)
      ensures pid == createdProgram && uniforms == map[] && Valid()
    {
      pid := createdProgram;
      uniforms := map[];
    }

    /**
     * Registers `uniformName` with the setter of `dtype` and the location the
     * graphics context reports for it in this program. An unknown `dtype`
     * fails before the registry is touched; registering a name again replaces
     * its entry.
     */
    method AddUniform(uniformName: string, dtype: string, glGetUniformLocation: (nat, string) -> int)
      returns (r: Result<()>)
      requires Valid()
      modifies this`uniforms
      ensures Valid()
      ensures dtype !in UniformFunctionMap ==> r == Err(UnknownUniformType(dtype)) && uniforms == old(uniforms)
      ensures dtype in UniformFunctionMap ==>
                && r == Ok(())
                && uniforms == old(uniforms)[uniformName := ShaderUniform(uniformName, glGetUniformLocation(pid, uniformName), UniformFunctionMap[dtype])]
    {
      if dtype !in UniformFunctionMap {
        return Err(UnknownUniformType(dtype));
      }
      var uniformFunction := UniformFunctionMap[dtype];
      uniforms := uniforms[uniformName := ShaderUniform(uniformName, glGetUniformLocation(pid, uniformName), uniformFunction)];
      return Ok(());
    }

    /**
     * The graphics call that sets a registered uniform: its own setter, at its
     * stored location, with `data`. An unregistered name fails.
     */
    function UpdateUniform(uniformName: string, data: UniformData): (r: Result<GlCall>)
      reads this
      ensures r.Ok? <==> uniformName in uniforms
      ensures r.Ok? ==> r.value == uniforms[uniformName].updater.Apply(uniforms[uniformName].uid, data)
      ensures r.Ok? ==> !r.value.AttachShader? && r.value.location == uniforms[uniformName].uid && r.value.values == data
      ensures r.Ok? ==> (r.value.Uniform4f? <==> uniforms[uniformName].updater == UniformVec4)
      ensures r.Err? ==> r.error == UnknownUniform(uniformName)
    {
      if uniformName !in uniforms then Err(UnknownUniform(uniformName))
      else
        var uniform := uniforms[uniformName];
        Ok(uniform.updater.Apply(uniform.uid, data))
    }

    /** Attaching reads the shader's handle, so an uncompiled shader cannot be attached. */
    function Attach(shader: Shader): (r: Result<GlCall>)
      reads shader
      ensures r.Ok? <==> shader.Sid().Ok?
      ensures r.Ok? ==> r.value == AttachShader(pid, shader.Sid().value)
      ensures r.Err? ==> r.error == ShaderNotCreated
    {
      match shader.Sid()
      case Ok(sid) => Ok(AttachShader(pid, sid))
      case Err(e) => Err(e)
    }
  }

  /**
   * A vertex shader built with the defaults has no handle until it is compiled;
   * afterwards `sid` returns the handle the graphics context gave it, and the
   * shader can be attached to a program.
   */
  method ShaderLifecycle(source: string, glCreateShader: nat -> nat, createdProgram: nat)
    returns (before: Result<nat>, after: Result<nat>, attached: Result<GlCall>)
    requires glCreateShader(SupportedShaderTypes["vertex"]) != 0
    ensures before == Err(ShaderNotCreated)
    ensures after == Ok(glCreateShader(SupportedShaderTypes["vertex"]))
    ensures attached == Ok(AttachShader(createdProgram, after.value))
  {
    var built := Shader.New(source, "vertex");
    assert Preprocess(source, "vertex", "2.0").Ok?;
    var shader := built.value;
    before := shader.Sid();
    var compiled := shader.Compile(glCreateShader);
    after := shader.Sid();
    var program := new ShaderProgram(createdProgram);
    attached := program.Attach(shader);
  }

  /**
   * A `vec4` uniform registered under `fill_color` is set through the vector
   * call at the location found for it; an unregistered name fails.
   */
  method UniformRoundTrip(createdProgram: nat, glGetUniformLocation: (nat, string) -> int, data: UniformData)
    returns (updated: Result<GlCall>, missing: Result<GlCall>)
    ensures updated == Ok(Uniform4f(glGetUniformLocation(createdProgram, "fill_color"), data))
    ensures missing == Err(UnknownUniform("missing"))
  {
    var program := new ShaderProgram(createdProgram);
    var added := program.AddUniform("fill_color", "vec4", glGetUniformLocation);
    updated := program.UpdateUniform("fill_color", data);
    missing := program.UpdateUniform("missing", data);
  }
}
