/**
 * The add-on's small helpers that write style keys into an object's custom
 * properties and reset the scene's stored results. Each writer is a function
 * from the old property map to the new one; the owner of the map is a class
 * whose methods replace its map in place, as the editor does.
 */
module Helpers {
  import opened ObjectProperties
  import opened CurveProcessor

  /** The fill colour of each named preset. */
  const FillPresets: map<string, Rgba> := map[
    "ACCESSIBLE" := (0.6, 0.6, 0.6, 1.0),
    "ENTITIES" := (0.435, 0.435, 0.435, 1.0),
    "NEXT_AREA" := (1.0, 1.0, 1.0, 1.0),
    "LIMITS" := (0.25, 0.25, 0.25, 1.0)
  ]

  /** The keys a known fill preset writes. */
  const FillKeys: seq<string> := [
    "scaleform_fill_preset",
    "scaleform_fill_color_r", "scaleform_fill_color_g", "scaleform_fill_color_b", "scaleform_fill_color_a"
  ]

  /** The keys the stroke settings write. */
  const StrokeKeys: seq<string> := [
    "scaleform_use_stroke",
    "scaleform_stroke_color_r", "scaleform_stroke_color_g", "scaleform_stroke_color_b", "scaleform_stroke_color_a",
    "scaleform_stroke_width"
  ]

  /** The scene's stored sizes, centres and positions, all reset to 0.0. */
  const SceneRealKeys: seq<string> := [
    "scaleform_width_orig", "scaleform_height_orig",
    "scaleform_width_svg", "scaleform_height_svg",
    "scaleform_center_x", "scaleform_center_y",
    "scaleform_scaleform_center_x", "scaleform_scaleform_center_y",
    "scaleform_position_svg_x", "scaleform_position_svg_y",
    "scaleform_position_scaleform_x", "scaleform_position_scaleform_y"
  ]

  const SceneValidKey: string := "scaleform_has_valid_data"
  const SceneCountKey: string := "scaleform_selected_curve_count"

  // ---------------------------------------------------------------------------
  // The new property maps

  /** `apply_fill_preset`: a known preset writes its name and its four colour channels; any other name writes nothing. */
  function WithFillPreset(props: PropertyMap, preset: string): (r: PropertyMap)
    ensures preset in FillPresets ==> r.Keys == props.Keys + set k | k in FillKeys
  {
    if preset in FillPresets then
      var rgba := FillPresets[preset];
      props["scaleform_fill_preset" := StringProp(preset)]
           ["scaleform_fill_color_r" := RealProp(rgba.0)]
           ["scaleform_fill_color_g" := RealProp(rgba.1)]
           ["scaleform_fill_color_b" := RealProp(rgba.2)]
           ["scaleform_fill_color_a" := RealProp(rgba.3)]
    else props
  }

  /** `apply_stroke_settings`: the flag, the four colour channels and the width. */
  function WithStrokeSettings(props: PropertyMap, color: Rgba, width: real, useStroke: bool): (r: PropertyMap)
    ensures r.Keys == props.Keys + set k | k in StrokeKeys
  {
    props["scaleform_use_stroke" := BoolProp(useStroke)]
         ["scaleform_stroke_color_r" := RealProp(color.0)]
         ["scaleform_stroke_color_g" := RealProp(color.1)]
         ["scaleform_stroke_color_b" := RealProp(color.2)]
         ["scaleform_stroke_color_a" := RealProp(color.3)]
         ["scaleform_stroke_width" := RealProp(width)]
  }

  /** `reset_scene_properties`: no valid data, every stored number 0.0, no selected curve. */
  function ResetScene(props: PropertyMap): (r: PropertyMap)
    ensures r.Keys == props.Keys + {SceneValidKey, SceneCountKey} + set k | k in SceneRealKeys
  {
    props[SceneValidKey := BoolProp(false)]
         ["scaleform_width_orig" := RealProp(0.0)]
         ["scaleform_height_orig" := RealProp(0.0)]
         ["scaleform_width_svg" := RealProp(0.0)]
         ["scaleform_height_svg" := RealProp(0.0)]
         ["scaleform_center_x" := RealProp(0.0)]
         ["scaleform_center_y" := RealProp(0.0)]
         ["scaleform_scaleform_center_x" := RealProp(0.0)]
         ["scaleform_scaleform_center_y" := RealProp(0.0)]
         ["scaleform_position_svg_x" := RealProp(0.0)]
         ["scaleform_position_svg_y" := RealProp(0.0)]
         ["scaleform_position_scaleform_x" := RealProp(0.0)]
         ["scaleform_position_scaleform_y" := RealProp(0.0)]
         [SceneCountKey := IntProp(0)]
  }

  // ---------------------------------------------------------------------------
  // What the writers promise

  /** A name that is not a preset (the "CUSTOM" choice, say) leaves the object as it was. */
  lemma UnknownPresetChangesNothing(props: PropertyMap, preset: string)
    requires preset !in FillPresets
    ensures WithFillPreset(props, preset) == props
  {
  }

  /** A known preset changes no key other than the preset name and the four fill channels. */
  lemma FillPresetKeepsOtherKeys(props: PropertyMap, preset: string, key: string)
    requires key !in FillKeys
    ensures key in WithFillPreset(props, preset) <==> key in props
    ensures key in props ==> WithFillPreset(props, preset)[key] == props[key]
  {
  }

  /** The stroke settings change no key other than their six. */
  lemma StrokeKeepsOtherKeys(props: PropertyMap, color: Rgba, width: real, useStroke: bool, key: string)
    requires key !in StrokeKeys
    ensures key in WithStrokeSettings(props, color, width, useStroke) <==> key in props
    ensures key in props ==> WithStrokeSettings(props, color, width, useStroke)[key] == props[key]
  {
  }

  /** The scene reset changes no key other than the ones it lists. */
  lemma ResetKeepsOtherKeys(props: PropertyMap, key: string)
    requires key !in SceneRealKeys && key != SceneValidKey && key != SceneCountKey
    ensures key in ResetScene(props) <==> key in props
    ensures key in props ==> ResetScene(props)[key] == props[key]
  {
  }

  /** After the reset the scene holds no valid data, zero for every stored number and no selected curve. */
  lemma ResetSceneValues(props: PropertyMap)
    ensures var r := ResetScene(props);
      && !GetBool(r, SceneValidKey, true)
      && GetReal(r, SceneCountKey, 1.0) == 0.0
      && (forall i :: 0 <= i < |SceneRealKeys| ==> GetReal(r, SceneRealKeys[i], 1.0) == 0.0)
  {
    var r := ResetScene(props);
    forall i | 0 <= i < |SceneRealKeys|
      ensures GetReal(r, SceneRealKeys[i], 1.0) == 0.0
    {
      assert r[SceneRealKeys[i]] == RealProp(0.0);
    }
  }

  /** Resetting twice is resetting once. */
  lemma ResetIsIdempotent(props: PropertyMap)
    ensures ResetScene(ResetScene(props)) == ResetScene(props)
  {
    var r := ResetScene(props);
    assert ResetScene(r).Keys == r.Keys;
    forall k | k in r
      ensures ResetScene(r)[k] == r[k]
    {
      if k !in SceneRealKeys && k != SceneValidKey && k != SceneCountKey {
        ResetKeepsOtherKeys(r, k);
      }
    }
  }

  /** Applying the same preset twice is applying it once. */
  lemma FillPresetIsIdempotent(props: PropertyMap, preset: string)
    ensures WithFillPreset(WithFillPreset(props, preset), preset) == WithFillPreset(props, preset)
  {
    var r := WithFillPreset(props, preset);
    if preset in FillPresets {
      assert WithFillPreset(r, preset).Keys == r.Keys;
      forall k | k in r
        ensures WithFillPreset(r, preset)[k] == r[k]
      {
        if k !in FillKeys {
          FillPresetKeepsOtherKeys(r, preset, k);
        }
      }
    }
  }

  /**
   * The curve processor reads a preset back: the style of an object after a
   * known preset names that preset and carries its colour.
   */
  lemma FillPresetReadBack(obj: CurveObject, preset: string)
    requires preset in FillPresets
    ensures var styled := obj.(props := WithFillPreset(obj.props, preset));
      && SettingsOf(styled).fillPreset == preset
      && SettingsOf(styled).fillColor == FillPresets[preset]
  {
  }

  /** The curve processor reads the stroke settings back exactly as written. */
  lemma StrokeReadBack(obj: CurveObject, color: Rgba, width: real, useStroke: bool)
    ensures var styled := obj.(props := WithStrokeSettings(obj.props, color, width, useStroke));
      && SettingsOf(styled).useStroke == useStroke
      && SettingsOf(styled).strokeColor == color
      && SettingsOf(styled).strokeWidth == width
  {
  }

  // ---------------------------------------------------------------------------
  // Writing in place

  /** An editor object or scene: the owner of a custom-property map that the helpers update in place. */
  class PropertyOwner {
    var props: PropertyMap

    constructor(props: PropertyMap)
      ensures this.props == props
    {
      this.props := props;
    }
  }

  method ApplyFillPreset(obj: PropertyOwner, preset: string)
    modifies obj
    ensures obj.props == WithFillPreset(old(obj.props), preset)
  {
    if preset in FillPresets {
      var rgba := FillPresets[preset];
      obj.props := obj.props["scaleform_fill_preset" := StringProp(preset)];
      obj.props := obj.props["scaleform_fill_color_r" := RealProp(rgba.0)];
      obj.props := obj.props["scaleform_fill_color_g" := RealProp(rgba.1)];
      obj.props := obj.props["scaleform_fill_color_b" := RealProp(rgba.2)];
      obj.props := obj.props["scaleform_fill_color_a" := RealProp(rgba.3)];
    }
  }

  method ApplyStrokeSettings(obj: PropertyOwner, color: Rgba, width: real, useStroke: bool)
    modifies obj
    ensures obj.props == WithStrokeSettings(old(obj.props), color, width, useStroke)
  {
    obj.props := obj.props["scaleform_use_stroke" := BoolProp(useStroke)];
    obj.props := obj.props["scaleform_stroke_color_r" := RealProp(color.0)];
    obj.props := obj.props["scaleform_stroke_color_g" := RealProp(color.1)];
    obj.props := obj.props["scaleform_stroke_color_b" := RealProp(color.2)];
    obj.props := obj.props["scaleform_stroke_color_a" := RealProp(color.3)];
    obj.props := obj.props["scaleform_stroke_width" := RealProp(width)];
  }

  method ResetSceneProperties(scene: PropertyOwner)
    modifies scene
    ensures scene.props == ResetScene(old(scene.props))
  {
    scene.props := scene.props[SceneValidKey := BoolProp(false)];
    scene.props := scene.props["scaleform_width_orig" := RealProp(0.0)];
    scene.props := scene.props["scaleform_height_orig" := RealProp(0.0)];
    scene.props := scene.props["scaleform_width_svg" := RealProp(0.0)];
    scene.props := scene.props["scaleform_height_svg" := RealProp(0.0)];
    scene.props := scene.props["scaleform_center_x" := RealProp(0.0)];
    scene.props := scene.props["scaleform_center_y" := RealProp(0.0)];
    scene.props := scene.props["scaleform_scaleform_center_x" := RealProp(0.0)];
    scene.props := scene.props["scaleform_scaleform_center_y" := RealProp(0.0)];
    scene.props := scene.props["scaleform_position_svg_x" := RealProp(0.0)];
    scene.props := scene.props["scaleform_position_svg_y" := RealProp(0.0)];
    scene.props := scene.props["scaleform_position_scaleform_x" := RealProp(0.0)];
    scene.props := scene.props["scaleform_position_scaleform_y" := RealProp(0.0)];
    scene.props := scene.props[SceneCountKey := IntProp(0)];
  }
}
