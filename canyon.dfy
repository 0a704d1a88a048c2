/** The canyon material's fog uniforms and the scene background, as `main.ts`
    sets them up, and how the uniforms reach the fog shader. */
module Canyon {
  import FogShader

  /** A colour uniform: a `DangColor` built from a hex literal such as
      "#080041". Its conversion to RGB is not part of this model. */
  datatype Color = Hex(code: string)

  /** A snapshot of the six `canyonUniforms` values. */
  datatype UniformValues = UniformValues(
    fogColorNear: Color, fogColorMid: Color, fogColorFar: Color,
    fogNear: real, fogMid: real, fogFar: real)
  {
    /** The three fog distances are strictly increasing. */
    predicate Ordered() {
      fogNear < fogMid < fogFar
    }
  }

  /** The values `canyonUniforms` starts with. */
  function InitialUniforms(): (v: UniformValues)
    ensures v.Ordered()
    ensures v.fogNear == 666.0 && v.fogMid == 3000.0 && v.fogFar == 10000.0
  {
    UniformValues(Hex("#080041"), Hex("#b300b0"), Hex("#ffffff"), 666.0, 3000.0, 10000.0)
  }

  /** The mutable `canyonUniforms` record: every `{ value }` cell is a field
      that presets and the GUI overwrite in place. */
  class CanyonUniforms {
    var fogColorNear: Color
    var fogColorMid: Color
    var fogColorFar: Color
    var fogNear: real
    var fogMid: real
    var fogFar: real

    /** The current values of all six uniforms. */
    function Value(): UniformValues
      reads this
    {
      UniformValues(fogColorNear, fogColorMid, fogColorFar, fogNear, fogMid, fogFar)
    }

    constructor ()
      ensures Value() == InitialUniforms()
    {
      fogColorNear := Hex("#080041");
      fogColorMid := Hex("#b300b0");
      fogColorFar := Hex("#ffffff");
      fogNear := 666.0;
      fogMid := 3000.0;
      fogFar := 10000.0;
    }
  }

  /** The part of the scene the fog setup touches: its background colour. */
  class Scene {
    var background: Color

    /** The background is set once to the current far fog colour. */
    constructor (uniforms: CanyonUniforms)
      ensures background == uniforms.fogColorFar
    {
      background := uniforms.fogColorFar;
    }
  }

  /** The shader's view of the uniforms, given how colours convert to RGB.
      The shader is defined at every depth exactly when the distances are
      ordered. */
  function ShaderParams(v: UniformValues, toRgb: Color -> FogShader.Rgb): (p: FogShader.FogParams)
    ensures p.Ordered() <==> v.Ordered()
    ensures v.Ordered() ==> forall depth :: FogShader.BandDefined(p, depth)
  {
    FogShader.FogParams(toRgb(v.fogColorNear), toRgb(v.fogColorMid), toRgb(v.fogColorFar),
                        v.fogNear, v.fogMid, v.fogFar)
  }
}
