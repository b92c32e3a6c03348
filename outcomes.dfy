/** Failures raised by the shader layer and the result type that carries them. */
module Outcomes {

  datatype Option<+T> = None | Some(value: T)

  /** One constructor per exception the shader layer can raise. */
  datatype Failure =
    | UnknownVersion(version: string)      // KeyError from the version table lookup
    | UnsupportedStage(stage: string)      // TypeError from the preprocessor
    | ShaderNotCreated                     // NameError from Shader.sid
    | UnknownShaderKind(kind: string)      // KeyError from the stage-to-GL-enum lookup in compile
    | UnknownUniformType(dtype: string)    // KeyError from the uniform function table
    | UnknownUniform(name: string)         // KeyError from the uniform registry

  datatype Result<+T> = Ok(value: T) | Err(error: Failure) {
    predicate IsFailure() { Err? }

    function PropagateFailure<U>(): Result<U>
      requires Err?
    {
      Err(error)
    }

    function Extract(): T
      requires Ok?
    {
      value
    }
  }
}
