/** The canyon fragment shader: a depth-based fog colour blended across three
    bands (near, mid, far) with the GLSL built-ins `smoothstep` and `mix`
    (section 8.3 of the OpenGL ES Shading Language 1.00 specification).
    Floats are modelled as reals; the depth is an input to the model. */
module FogShader {

  /** A `vec3` colour. */
  datatype Rgb = Rgb(r: real, g: real, b: real)

  /** A `vec4` colour, as written to `gl_FragColor`. */
  datatype Rgba = Rgba(r: real, g: real, b: real, a: real)

  /** The six fog uniforms the shader reads. */
  datatype FogParams = FogParams(
    colorNear: Rgb, colorMid: Rgb, colorFar: Rgb,
    near: real, mid: real, far: real)
  {
    /** The distances are strictly increasing. */
    predicate Ordered() {
      near < mid < far
    }
  }

  /** `x` lies between `a` and `b`, whichever of the two is larger. */
  predicate Between(x: real, a: real, b: real) {
    (a <= x <= b) || (b <= x <= a)
  }

  /** Going from `x1` to `x2` moves in the direction from `a` to `b`, or
      stays put. */
  predicate StepsToward(x1: real, x2: real, a: real, b: real) {
    (a <= b ==> x1 <= x2) && (b <= a ==> x2 <= x1)
  }

  /** Each component of `c` lies between the matching components of `a` and `b`. */
  predicate WithinRgb(c: Rgb, a: Rgb, b: Rgb) {
    Between(c.r, a.r, b.r) && Between(c.g, a.g, b.g) && Between(c.b, a.b, b.b)
  }

  /** GLSL `clamp(x, lo, hi)`, that is `min(max(x, lo), hi)`. */
  function Clamp(x: real, lo: real, hi: real): (r: real)
    requires lo <= hi
    ensures lo <= r <= hi
    ensures lo <= x <= hi ==> r == x
    ensures x <= lo ==> r == lo
    ensures x >= hi ==> r == hi
  {
    var m := if x > lo then x else lo;
    if m < hi then m else hi
  }

  /** The cubic Hermite ease `3u² − 2u³` that `smoothstep` applies to its
      normalised argument. */
  function Hermite(u: real): real {
    u * u * (3.0 - 2.0 * u)
  }

  /** A product of two non-negative reals is non-negative. */
  lemma MulNonNegative(a: real, b: real)
    requires 0.0 <= a && 0.0 <= b
    ensures 0.0 <= a * b
  {
  }

  /** The ease maps the unit interval into itself. */
  lemma HermiteBounds(u: real)
    requires 0.0 <= u <= 1.0
    ensures 0.0 <= Hermite(u) <= 1.0
  {
    // 1 − (3u² − 2u³) == (1 − u)² (1 + 2u)
    assert 1.0 - Hermite(u) == (1.0 - u) * (1.0 - u) * (1.0 + 2.0 * u);
    MulNonNegative(1.0 - u, 1.0 - u);
    MulNonNegative((1.0 - u) * (1.0 - u), 1.0 + 2.0 * u);
    MulNonNegative(u, u);
    MulNonNegative(u * u, 3.0 - 2.0 * u);
  }

  /** The ease never decreases on the unit interval. */
  lemma HermiteMonotone(u: real, v: real)
    requires 0.0 <= u <= v <= 1.0
    ensures Hermite(u) <= Hermite(v)
  {
    // Hermite(v) − Hermite(u) == (v − u) (u (3 − 2u − v) + v (3 − 2v − u))
    var w := u * (3.0 - 2.0 * u - v) + v * (3.0 - 2.0 * v - u);
    assert Hermite(v) - Hermite(u) == (v - u) * w;
    MulNonNegative(u, 3.0 - 2.0 * u - v);
    MulNonNegative(v, 3.0 - 2.0 * v - u);
    MulNonNegative(v - u, w);
  }

  /** GLSL `smoothstep(edge0, edge1, x)`: clamp the normalised position of `x`
      between the edges to [0, 1] and ease it. The result is undefined for
      `edge0 >= edge1`, hence the precondition. */
  function Smoothstep(edge0: real, edge1: real, x: real): (r: real)
    requires edge0 < edge1
    ensures 0.0 <= r <= 1.0
    ensures x <= edge0 ==> r == 0.0
    ensures x >= edge1 ==> r == 1.0
  {
    var u := Clamp((x - edge0) / (edge1 - edge0), 0.0, 1.0);
    HermiteBounds(u);
    NormalisedEdges(edge0, edge1, x);
    Hermite(u)
  }

  /** The normalised position handed to the ease grows with `x`. */
  lemma NormalisedMonotone(edge0: real, edge1: real, x: real, y: real)
    requires edge0 < edge1 && x <= y
    ensures (x - edge0) / (edge1 - edge0) <= (y - edge0) / (edge1 - edge0)
  {
    var w := edge1 - edge0;
    assert (y - edge0) / w - (x - edge0) / w == (y - x) / w;
  }

  /** The normalised position is at most 0 up to `edge0` and at least 1 from
      `edge1` on. */
  lemma NormalisedEdges(edge0: real, edge1: real, x: real)
    requires edge0 < edge1
    ensures x <= edge0 ==> (x - edge0) / (edge1 - edge0) <= 0.0
    ensures x >= edge1 ==> (x - edge0) / (edge1 - edge0) >= 1.0
  {
    var w := edge1 - edge0;
    assert ((x - edge0) / w) * w == x - edge0;
    if x >= edge1 {
      assert (x - edge0) / w >= 1.0;
    }
  }

  /** `smoothstep` never decreases as its argument grows. */
  lemma SmoothstepMonotone(edge0: real, edge1: real, x: real, y: real)
    requires edge0 < edge1 && x <= y
    ensures Smoothstep(edge0, edge1, x) <= Smoothstep(edge0, edge1, y)
  {
    var w := edge1 - edge0;
    NormalisedMonotone(edge0, edge1, x, y);
    var u := Clamp((x - edge0) / w, 0.0, 1.0);
    var v := Clamp((y - edge0) / w, 0.0, 1.0);
    assert u <= v;
    HermiteMonotone(u, v);
  }

  /** Halfway between the edges `smoothstep` is exactly one half. */
  lemma SmoothstepMidpoint(edge0: real, edge1: real)
    requires edge0 < edge1
    ensures Smoothstep(edge0, edge1, (edge0 + edge1) / 2.0) == 0.5
  {
    var w := edge1 - edge0;
    assert ((edge0 + edge1) / 2.0 - edge0) / w == 0.5;
  }

  /** GLSL `mix(x, y, a)` on floats: `x·(1 − a) + y·a`. */
  function Mix(x: real, y: real, a: real): (r: real)
    ensures a == 0.0 ==> r == x
    ensures a == 1.0 ==> r == y
    ensures 0.0 <= a <= 1.0 ==> Between(r, x, y)
  {
    MixBetween(x, y, a);
    x * (1.0 - a) + y * a
  }

  /** For a weight in [0, 1] the interpolant lies between its two ends. */
  lemma MixBetween(x: real, y: real, a: real)
    ensures 0.0 <= a <= 1.0 ==> Between(x * (1.0 - a) + y * a, x, y)
  {
    if 0.0 <= a <= 1.0 {
      // x·(1 − a) + y·a == x + a·(y − x)
      assert x * (1.0 - a) + y * a == x + a * (y - x);
      if x <= y {
        MulNonNegative(a, y - x);
        MulNonNegative(1.0 - a, y - x);
      } else {
        MulNonNegative(a, x - y);
        MulNonNegative(1.0 - a, x - y);
      }
    }
  }

  /** As the weight grows the interpolant moves monotonically from `x`
      towards `y`. */
  lemma MixMonotone(x: real, y: real, a: real, b: real)
    requires a <= b
    ensures StepsToward(Mix(x, y, a), Mix(x, y, b), x, y)
  {
    assert Mix(x, y, b) - Mix(x, y, a) == (b - a) * (y - x);
    if x <= y {
      MulNonNegative(b - a, y - x);
    } else {
      MulNonNegative(b - a, x - y);
    }
  }

  /** GLSL `mix` on `vec3` with a float weight: componentwise. */
  function MixRgb(x: Rgb, y: Rgb, a: real): (r: Rgb)
    ensures a == 0.0 ==> r == x
    ensures a == 1.0 ==> r == y
    ensures 0.0 <= a <= 1.0 ==> WithinRgb(r, x, y)
  {
    Rgb(Mix(x.r, y.r, a), Mix(x.g, y.g, a), Mix(x.b, y.b, a))
  }

  /** The near band is the one taken: the depth is short of `fogMid`. */
  predicate InNearBand(p: FogParams, depth: real) {
    depth < p.mid
  }

  /** The `smoothstep` of the branch taken for this depth is defined. */
  predicate BandDefined(p: FogParams, depth: real) {
    if InNearBand(p, depth) then p.near < p.mid else p.mid < p.far
  }

  /** Ordered distances make every depth well defined. */
  lemma OrderedDefined(p: FogParams, depth: real)
    requires p.Ordered()
    ensures BandDefined(p, depth)
  {
  }

  /** The blend weight `t` of the branch taken. */
  function BandWeight(p: FogParams, depth: real): (t: real)
    requires BandDefined(p, depth)
    ensures 0.0 <= t <= 1.0
  {
    if InNearBand(p, depth) then Smoothstep(p.near, p.mid, depth)
    else Smoothstep(p.mid, p.far, depth)
  }

  /** The two colours the branch taken blends between. */
  function BandEnds(p: FogParams, depth: real): (Rgb, Rgb) {
    if InNearBand(p, depth) then (p.colorNear, p.colorMid) else (p.colorMid, p.colorFar)
  }

  /** The fog colour of the branch taken, before alpha is appended. */
  function FogColor(p: FogParams, depth: real): (c: Rgb)
    requires BandDefined(p, depth)
    ensures InNearBand(p, depth) ==> WithinRgb(c, p.colorNear, p.colorMid)
    ensures !InNearBand(p, depth) ==> WithinRgb(c, p.colorMid, p.colorFar)
  {
    var (a, b) := BandEnds(p, depth);
    MixRgb(a, b, BandWeight(p, depth))
  }

  /** `vec4(c, 1.0)`. */
  function Opaque(c: Rgb): Rgba {
    Rgba(c.r, c.g, c.b, 1.0)
  }

  /** The fragment shader's `main()`: the fragment is painted the fog colour
      alone, fully opaque, whatever the surface underneath. */
  function FragColor(p: FogParams, depth: real): (out: Rgba)
    requires BandDefined(p, depth)
    ensures out.a == 1.0
    ensures InNearBand(p, depth) ==>
      WithinRgb(Rgb(out.r, out.g, out.b), p.colorNear, p.colorMid)
    ensures !InNearBand(p, depth) ==>
      WithinRgb(Rgb(out.r, out.g, out.b), p.colorMid, p.colorFar)
  {
    Opaque(FogColor(p, depth))
  }

  /** Up to `fogNear` the fragment is exactly the near colour. */
  lemma NearColorUpToNear(p: FogParams, depth: real)
    requires p.near < p.mid && depth <= p.near
    ensures BandDefined(p, depth)
    ensures FragColor(p, depth) == Opaque(p.colorNear)
  {
  }

  /** At `fogMid` the far branch is taken and yields the mid colour, and the
      near branch's formula at the same depth yields it too: the two bands
      meet without a jump. */
  lemma BandsAgreeAtMid(p: FogParams)
    requires p.Ordered()
    ensures !InNearBand(p, p.mid)
    ensures FragColor(p, p.mid) == Opaque(p.colorMid)
    ensures MixRgb(p.colorNear, p.colorMid, Smoothstep(p.near, p.mid, p.mid)) == p.colorMid
  {
  }

  /** From `fogFar` on the fragment is exactly the far colour. */
  lemma FarColorFromFar(p: FogParams, depth: real)
    requires p.mid < p.far && depth >= p.far
    ensures BandDefined(p, depth)
    ensures FragColor(p, depth) == Opaque(p.colorFar)
  {
  }

  /** Within one band the blend weight does not decrease with depth. */
  lemma WeightMonotoneInBand(p: FogParams, d1: real, d2: real)
    requires d1 <= d2
    requires InNearBand(p, d1) == InNearBand(p, d2)
    requires BandDefined(p, d1)
    ensures BandDefined(p, d2)
    ensures BandWeight(p, d1) <= BandWeight(p, d2)
  {
    if InNearBand(p, d1) {
      SmoothstepMonotone(p.near, p.mid, d1, d2);
    } else {
      SmoothstepMonotone(p.mid, p.far, d1, d2);
    }
  }

  /** Within one band each colour component moves monotonically with depth
      from the band's first colour towards its second: the blend never turns
      back. */
  lemma ColorMonotoneInBand(p: FogParams, d1: real, d2: real)
    requires d1 <= d2
    requires InNearBand(p, d1) == InNearBand(p, d2)
    requires BandDefined(p, d1)
    ensures BandDefined(p, d2)
    ensures var (a, b) := BandEnds(p, d1);
      var c1 := FogColor(p, d1);
      var c2 := FogColor(p, d2);
      StepsToward(c1.r, c2.r, a.r, b.r) &&
      StepsToward(c1.g, c2.g, a.g, b.g) &&
      StepsToward(c1.b, c2.b, a.b, b.b)
  {
    WeightMonotoneInBand(p, d1, d2);
    var (a, b) := BandEnds(p, d1);
    var t1, t2 := BandWeight(p, d1), BandWeight(p, d2);
    MixMonotone(a.r, b.r, t1, t2);
    MixMonotone(a.g, b.g, t1, t2);
    MixMonotone(a.b, b.b, t1, t2);
  }

  /** Componentwise average of two colours. */
  function Average(x: Rgb, y: Rgb): Rgb {
    Rgb((x.r + y.r) / 2.0, (x.g + y.g) / 2.0, (x.b + y.b) / 2.0)
  }

  /** Halfway between `fogNear` and `fogMid` the weight is one half and the
      fragment is the average of the near and mid colours. */
  lemma HalfwayIsAverage(p: FogParams)
    requires p.near < p.mid
    ensures BandDefined(p, (p.near + p.mid) / 2.0)
    ensures BandWeight(p, (p.near + p.mid) / 2.0) == 0.5
    ensures FragColor(p, (p.near + p.mid) / 2.0) == Opaque(Average(p.colorNear, p.colorMid))
  {
    SmoothstepMidpoint(p.near, p.mid);
  }
}
