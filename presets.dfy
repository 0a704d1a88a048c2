/** The fog presets: each overwrites fields of the uniforms record in place;
    `applyPreset` dispatches on the preset's name. */
module Presets {
  import opened Canyon
  import FogShader

  /** The keys of the `presets` table. */
  datatype Preset = Default | Nightlight | Wine

  /** The distances `darkFog` writes. */
  const DarkNear: real := 1000.0
  const DarkMid: real := 5500.0
  const DarkFar: real := 8000.0

  /** What `darkFog` leaves: the dark distances, the colours untouched. */
  function AfterDarkFog(v: UniformValues): (r: UniformValues)
    ensures r.fogColorNear == v.fogColorNear
    ensures r.fogColorMid == v.fogColorMid
    ensures r.fogColorFar == v.fogColorFar
    ensures r.Ordered()
  {
    v.(fogNear := DarkNear, fogMid := DarkMid, fogFar := DarkFar)
  }

  /** What applying a preset leaves, step by step as each preset assigns. */
  function AfterPreset(name: Preset, v: UniformValues): (r: UniformValues)
    ensures r.Ordered()
  {
    match name
    case Default =>
      v.(fogColorNear := Hex("#080041"), fogColorMid := Hex("#b300b0"),
         fogColorFar := Hex("#ffffff"), fogNear := 666.0, fogMid := 3000.0,
         fogFar := 10000.0)
    case Nightlight =>
      AfterDarkFog(v.(fogColorNear := Hex("#060415"), fogColorMid := Hex("#fdffa3"),
                      fogColorFar := Hex("#0d0a0f")))
    case Wine =>
      AfterDarkFog(v.(fogColorNear := Hex("#050315"), fogColorMid := Hex("#5d3243"),
                      fogColorFar := Hex("#0d090f")))
  }

  /** Every preset assigns all six fields, so what was there before does not
      matter. */
  lemma PresetIgnoresPrior(name: Preset, v: UniformValues, w: UniformValues)
    ensures AfterPreset(name, v) == AfterPreset(name, w)
  {
  }

  /** Applying a preset twice is applying it once. */
  lemma PresetIdempotent(name: Preset, v: UniformValues)
    ensures AfterPreset(name, AfterPreset(name, v)) == AfterPreset(name, v)
  {
    PresetIgnoresPrior(name, AfterPreset(name, v), v);
  }

  /** The default preset restores the values the uniforms start with. */
  lemma DefaultRestoresInitial(v: UniformValues)
    ensures AfterPreset(Default, v) == InitialUniforms()
  {
  }

  /** The two dark presets share `darkFog`'s distances and differ only in
      colour. */
  lemma DarkPresetsShareDistances(v: UniformValues)
    ensures AfterPreset(Nightlight, v).fogNear == AfterPreset(Wine, v).fogNear == DarkNear
    ensures AfterPreset(Nightlight, v).fogMid == AfterPreset(Wine, v).fogMid == DarkMid
    ensures AfterPreset(Nightlight, v).fogFar == AfterPreset(Wine, v).fogFar == DarkFar
    ensures AfterPreset(Nightlight, v) != AfterPreset(Wine, v)
  {
  }

  /** After any preset the fog shader is defined at every depth. */
  lemma PresetShaderDefined(name: Preset, v: UniformValues,
                            toRgb: Color -> FogShader.Rgb, depth: real)
    ensures FogShader.BandDefined(ShaderParams(AfterPreset(name, v), toRgb), depth)
  {
  }

  /** `darkFog`: overwrite the three distances. */
  method DarkFog(uniforms: CanyonUniforms)
    modifies uniforms
    ensures uniforms.Value() == AfterDarkFog(old(uniforms.Value()))
  {
    uniforms.fogNear := DarkNear;
    uniforms.fogMid := DarkMid;
    uniforms.fogFar := DarkFar;
  }

  /** `presets.default`. */
  method ApplyDefault(uniforms: CanyonUniforms)
    modifies uniforms
    ensures uniforms.Value() == AfterPreset(Default, old(uniforms.Value()))
  {
    uniforms.fogColorNear := Hex("#080041");
    uniforms.fogColorMid := Hex("#b300b0");
    uniforms.fogColorFar := Hex("#ffffff");
    uniforms.fogNear := 666.0;
    uniforms.fogMid := 3000.0;
    uniforms.fogFar := 10000.0;
  }

  /** `presets.nightlight`. */
  method ApplyNightlight(uniforms: CanyonUniforms)
    modifies uniforms
    ensures uniforms.Value() == AfterPreset(Nightlight, old(uniforms.Value()))
  {
    uniforms.fogColorNear := Hex("#060415");
    uniforms.fogColorMid := Hex("#fdffa3");
    uniforms.fogColorFar := Hex("#0d0a0f");
    DarkFog(uniforms);
  }

  /** `presets.wine`. */
  method ApplyWine(uniforms: CanyonUniforms)
    modifies uniforms
    ensures uniforms.Value() == AfterPreset(Wine, old(uniforms.Value()))
  {
    uniforms.fogColorNear := Hex("#050315");
    uniforms.fogColorMid := Hex("#5d3243");
    uniforms.fogColorFar := Hex("#0d090f");
    DarkFog(uniforms);
  }

  /** `applyPreset`: run the named preset on the uniforms. The scene the GUI
      passes along is not a parameter of the source function and is left
      alone, background included. */
  method ApplyPreset(name: Preset, uniforms: CanyonUniforms, scene: Scene)
    modifies uniforms
    ensures uniforms.Value() == AfterPreset(name, old(uniforms.Value()))
    ensures scene.background == old(scene.background)
  {
    match name
    case Default => ApplyDefault(uniforms);
    case Nightlight => ApplyNightlight(uniforms);
    case Wine => ApplyWine(uniforms);
  }

  /** Start-up followed by a preset chosen in the GUI: the uniforms hold the
      preset's values, while the background keeps the initial far colour. */
  method StartThenSelect(name: Preset) returns (uniforms: CanyonUniforms, scene: Scene)
    ensures uniforms.Value() == AfterPreset(name, InitialUniforms())
    ensures scene.background == InitialUniforms().fogColorFar
    ensures name != Default ==> scene.background != uniforms.fogColorFar
  {
    uniforms := new CanyonUniforms();
    scene := new Scene(uniforms);
    ApplyPreset(name, uniforms, scene);
  }
}
