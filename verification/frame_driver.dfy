/** The per-frame callback shared by both dot components.

    The scene is passed explicitly: the material's uniform values (absent
    until the material has mounted), the video texture (absent until the
    camera has delivered its first frame) and the latest easing factor
    from the controls. The texture is an object shared between the scene
    and the `uTex` uniform, so the uniform records it by identity. */
module FrameDriver {
  import opened Easing

  datatype Option<T> = None | Some(value: T)

  datatype Rgb = Rgb(red: real, green: real, blue: real)

  /** A video texture; `needsUpdate` asks the renderer to re-upload the
      current camera frame. */
  datatype VideoTexture = VideoTexture(id: nat, needsUpdate: bool)

  /** The shader material's uniform values. */
  datatype Uniforms = Uniforms(
    tex: Option<nat>,
    texWidth: real,
    texHeight: real,
    samplePx: real,
    gamma: real,
    dotMin: real,
    dotMax: real,
    ease: real,
    colorA: Rgb,
    colorB: Rgb,
    sizeCap: real)

  datatype Scene = Scene(material: Option<Uniforms>, video: Option<VideoTexture>, easingFactor: real)

  /** The identity of the video texture, if there is one. */
  function TexRef(video: Option<VideoTexture>): Option<nat> {
    match video
    case None => None
    case Some(t) => Some(t.id)
  }

  /** a and b agree on every uniform except `tex` and `ease`. */
  predicate SameExceptTexAndEase(a: Uniforms, b: Uniforms) {
    && a.texWidth == b.texWidth
    && a.texHeight == b.texHeight
    && a.samplePx == b.samplePx
    && a.gamma == b.gamma
    && a.dotMin == b.dotMin
    && a.dotMax == b.dotMax
    && a.colorA == b.colorA
    && a.colorB == b.colorB
    && a.sizeCap == b.sizeCap
  }

  /** After a frame with a mounted material: the texture uniform is bound to
      the current video texture, which is flagged for re-upload, and the
      easing uniform lies in [0, 1]. */
  predicate FrameReady(s: Scene) {
    s.material.Some? ==>
      && s.material.value.tex == TexRef(s.video)
      && (s.video.Some? ==> s.video.value.needsUpdate)
      && 0.0 <= s.material.value.ease <= 1.0
  }

  /** One frame of elapsed time dt (seconds). */
  function Step(s: Scene, dt: real): (s': Scene)
    ensures s.material.None? ==> s' == s
    ensures s'.easingFactor == s.easingFactor
    ensures s'.material.Some? <==> s.material.Some?
    ensures s.material.Some? ==>
              && SameExceptTexAndEase(s.material.value, s'.material.value)
              && s'.material.value.tex == TexRef(s.video)
              && s'.material.value.ease == Ease(s.easingFactor, dt)
    ensures s.material.Some? ==>
              && TexRef(s'.video) == TexRef(s.video)
              && (s'.video.Some? ==> s'.video.value.needsUpdate)
    ensures FrameReady(s')
  {
    match s.material
    case None => s
    case Some(u) =>
      var video := match s.video
        case None => None
        case Some(t) => Some(t.(needsUpdate := true));
      s.(material := Some(u.(tex := TexRef(s.video), ease := Ease(s.easingFactor, dt))), video := video)
  }

  /** Running the callback twice for the same frame time changes nothing
      more than running it once. */
  lemma StepIdempotent(s: Scene, dt: real)
    ensures Step(Step(s, dt), dt) == Step(s, dt)
  {
  }

  /** The easing uniform keeps no history: two scenes that differ only in
      their current easing value are equal after a frame. */
  lemma EaseHasNoHistory(s1: Scene, s2: Scene, dt: real)
    requires s1.material.Some? && s2.material.Some?
    requires s1.video == s2.video && s1.easingFactor == s2.easingFactor
    requires s1.material.value.(ease := 0.0) == s2.material.value.(ease := 0.0)
    ensures Step(s1, dt) == Step(s2, dt)
  {
    var u1 := s1.material.value;
    var u2 := s2.material.value;
    assert u1.(tex := TexRef(s1.video), ease := Ease(s1.easingFactor, dt))
        == u1.(ease := 0.0).(tex := TexRef(s1.video), ease := Ease(s1.easingFactor, dt));
    assert u2.(tex := TexRef(s2.video), ease := Ease(s2.easingFactor, dt))
        == u2.(ease := 0.0).(tex := TexRef(s2.video), ease := Ease(s2.easingFactor, dt));
  }
}
