/**
 * `Scene` and `Ground`: the scene description built from the control-panel
 * parameters and the URL of the loaded model. Every part is either fixed or
 * included under one comparison with zero.
 */
module SceneComposer {
  import opened Wrappers

  /** An object-URL handle, as created by the viewer shell. */
  type ModelUrl = nat

  datatype Vec3 = Vec3(x: real, y: real, z: real)

  /** The values the control panel hands to `Scene` on each render. */
  datatype Params = Params(
    modelUnit: string,
    ambientLight: real,
    spotlightIntensity: real,
    spotlightPosition: Vec3,
    modelPosition: Vec3,
    rotationSpeed: real,
    environmentIntensity: real,
    showGround: bool,
    shadowMapSize: int)

  /** The panel's initial values. */
  const Defaults := Params("meters", 0.2, 1.5, Vec3(5.0, 8.0, 5.0), Vec3(0.0, 0.0, 0.0), 0.5, 0.2, true, 2048)

  datatype AmbientLight = AmbientLight(intensity: real)
  datatype DirectionalLight = DirectionalLight(position: Vec3, intensity: real, castShadow: bool, shadowMapSize: int)
  datatype SpotLight = SpotLight(position: Vec3, intensity: real, angle: real, penumbra: real,
                                 castShadow: bool, shadowMapSize: int)
  datatype ModelPlacement = ModelPlacement(url: ModelUrl, position: Vec3, scale: real)
  datatype GroundPlane = GroundPlane(visible: bool, width: real, depth: real, color: string, receiveShadow: bool)
  datatype OrbitControls = OrbitControls(autoRotate: bool, autoRotateSpeed: real)
  datatype Environment = Environment(preset: string, intensity: real)

  datatype SceneDesc = SceneDesc(
    background: string,
    ambient: Option<AmbientLight>,
    sun: Option<DirectionalLight>,
    spot: Option<SpotLight>,
    model: ModelPlacement,
    ground: GroundPlane,
    controls: OrbitControls,
    environment: Option<Environment>)

  /** The unit conversion: centimetres shrink the model a hundredfold, anything else keeps it. */
  function ModelScale(modelUnit: string): (r: real)
    ensures r == 0.01 || r == 1.0
    ensures r == 0.01 <==> modelUnit == "centimeters"
  {
    if modelUnit == "centimeters" then 0.01 else 1.0
  }

  /** The 50 by 50 grey plane, always in the scene, shown only when `visible`. */
  function Ground(visible: bool): (r: GroundPlane)
    ensures r.visible <==> visible
    ensures r.width == 50.0 && r.depth == 50.0 && r.receiveShadow
  {
    GroundPlane(visible, 50.0, 50.0, "#808080", true)
  }

  /** The scene `Scene` returns for the parameters `p` and the model at `url`. */
  function Compose(p: Params, url: ModelUrl): (r: SceneDesc)
    ensures r.ambient.Some? <==> p.ambientLight > 0.0
    ensures r.ambient.Some? ==> r.ambient.value.intensity == p.ambientLight
    ensures r.sun.Some? <==> p.spotlightIntensity > 0.0
    ensures r.spot.Some? <==> p.spotlightIntensity > 0.0
    ensures r.sun.Some? ==> r.sun.value.intensity == p.spotlightIntensity && r.sun.value.castShadow
    ensures r.spot.Some? ==> 2.0 * r.spot.value.intensity == p.spotlightIntensity && r.spot.value.castShadow
    ensures r.sun.Some? && r.spot.Some? ==>
              r.sun.value.position == r.spot.value.position == p.spotlightPosition &&
              r.sun.value.shadowMapSize == r.spot.value.shadowMapSize == p.shadowMapSize
    ensures r.environment.Some? <==> p.environmentIntensity > 0.0
    ensures r.environment.Some? ==> r.environment.value.intensity == p.environmentIntensity
    ensures r.model.url == url && r.model.position == p.modelPosition
    ensures r.model.scale == ModelScale(p.modelUnit)
    ensures r.ground.visible <==> p.showGround
    ensures r.ground == Ground(p.showGround)
    ensures r.controls.autoRotate && r.controls.autoRotateSpeed == p.rotationSpeed
  {
    var lit := p.spotlightIntensity > 0.0;
    SceneDesc(
      "#f0f0f0",
      if p.ambientLight > 0.0 then Some(AmbientLight(p.ambientLight)) else None,
      if lit then Some(DirectionalLight(p.spotlightPosition, p.spotlightIntensity, true, p.shadowMapSize)) else None,
      if lit then Some(SpotLight(p.spotlightPosition, p.spotlightIntensity * 0.5, 0.6, 0.5, true, p.shadowMapSize)) else None,
      ModelPlacement(url, p.modelPosition, ModelScale(p.modelUnit)),
      Ground(p.showGround),
      OrbitControls(true, p.rotationSpeed),
      if p.environmentIntensity > 0.0 then Some(Environment("city", p.environmentIntensity)) else None)
  }

  /** The scale depends on the unit alone, never on where the model is placed. */
  lemma ScaleIndependentOfPosition(p: Params, position: Vec3, url: ModelUrl)
    ensures Compose(p.(modelPosition := position), url).model.scale == Compose(p, url).model.scale
    ensures p.modelUnit == "meters" ==> Compose(p, url).model.scale == 1.0
    ensures p.modelUnit == "centimeters" ==> Compose(p, url).model.scale == 0.01
  {
  }

  /** A model 300 units tall in centimetres is shown 3 units tall. */
  lemma CentimetresExample(p: Params, url: ModelUrl)
    requires p.modelUnit == "centimeters"
    ensures 300.0 * Compose(p, url).model.scale == 3.0
  {
  }

  /**
   * Turning one slider to zero removes exactly the part it drives and leaves
   * the rest of the scene as it was.
   */
  lemma ZeroSliderRemovesOnlyItsPart(p: Params, url: ModelUrl)
    ensures p.ambientLight > 0.0 ==>
      Compose(p.(ambientLight := 0.0), url) == Compose(p, url).(ambient := None)
    ensures p.spotlightIntensity > 0.0 ==>
      Compose(p.(spotlightIntensity := 0.0), url) == Compose(p, url).(sun := None, spot := None)
    ensures p.environmentIntensity > 0.0 ==>
      Compose(p.(environmentIntensity := 0.0), url) == Compose(p, url).(environment := None)
  {
  }

  /** With the panel's initial values every optional part is present, at full scale. */
  lemma DefaultSceneIsComplete(url: ModelUrl)
    ensures var r := Compose(Defaults, url);
      r.ambient.Some? && r.sun.Some? && r.spot.Some? && r.environment.Some? &&
      r.spot.value.intensity == 0.75 && r.ground.visible && r.model.scale == 1.0
  {
  }
}
