/**
 The part of a render mesh that anchor resolution reads: the optional colour
 and position vertex attributes, each in one of several encodings. Colour
 conversions belong to the engine and are supplied as functions.
 */
module MeshAttributes {
  import opened Options
  import opened Vectors

  newtype Byte = x: int | 0 <= x < 256

  /** A four-component float vertex value (`[f32; 4]`). */
  datatype Vec4 = Vec4(x: real, y: real, z: real, w: real)

  /** A four-component byte vertex value (`[u8; 4]`). */
  datatype Rgba8 = Rgba8(r: Byte, g: Byte, b: Byte, a: Byte)

  /** The engine's colour type; only its equality matters here. */
  datatype Color = Color(r: real, g: real, b: real, a: real)

  /**
   The stored values of one vertex attribute. `OtherEncoding` stands for every
   encoding the anchor resolution does not accept; its values are not needed.
   */
  datatype VertexAttributeValues =
    | Float32x3(f3: seq<Vec3>)
    | Float32x4(f4: seq<Vec4>)
    | Uint8x4(u4: seq<Rgba8>)
    | OtherEncoding

  datatype Mesh = Mesh(color: Option<VertexAttributeValues>, position: Option<VertexAttributeValues>)

  /** `Color::from([f32; 3])`, `Color::from([f32; 4])` and `Color::rgba_u8`. */
  datatype ColorConversions = ColorConversions(
    fromRgb: Vec3 -> Color,
    fromRgba: Vec4 -> Color,
    fromRgba8: Rgba8 -> Color)

  /**
   The mesh's vertex colours, one per vertex, when its colour attribute exists
   in one of the three accepted encodings; `None` otherwise.
   */
  function VertexColors(mesh: Mesh, conv: ColorConversions): (r: Option<seq<Color>>)
    ensures r.Some? <==>
      mesh.color.Some? && (mesh.color.value.Float32x3? || mesh.color.value.Float32x4? || mesh.color.value.Uint8x4?)
    ensures r.Some? && mesh.color.value.Float32x3? ==>
      |r.value| == |mesh.color.value.f3|
      && forall i :: 0 <= i < |r.value| ==> r.value[i] == conv.fromRgb(mesh.color.value.f3[i])
    ensures r.Some? && mesh.color.value.Float32x4? ==>
      |r.value| == |mesh.color.value.f4|
      && forall i :: 0 <= i < |r.value| ==> r.value[i] == conv.fromRgba(mesh.color.value.f4[i])
    ensures r.Some? && mesh.color.value.Uint8x4? ==>
      |r.value| == |mesh.color.value.u4|
      && forall i :: 0 <= i < |r.value| ==> r.value[i] == conv.fromRgba8(mesh.color.value.u4[i])
  {
    match mesh.color
    case None => None
    case Some(attr) =>
      match attr
      case Float32x3(v) => Some(seq(|v|, i requires 0 <= i < |v| => conv.fromRgb(v[i])))
      case Float32x4(v) => Some(seq(|v|, i requires 0 <= i < |v| => conv.fromRgba(v[i])))
      case Uint8x4(v) => Some(seq(|v|, i requires 0 <= i < |v| => conv.fromRgba8(v[i])))
      case OtherEncoding => None
  }

  /**
   The mesh's vertex positions when its position attribute exists as float
   triples; `None` for a missing attribute or any other encoding.
   */
  function VertexPositions(mesh: Mesh): (r: Option<seq<Vec3>>)
    ensures r.Some? <==> mesh.position.Some? && mesh.position.value.Float32x3?
    ensures r.Some? ==> r.value == mesh.position.value.f3
  {
    match mesh.position
    case Some(Float32x3(v)) => Some(v)
    case _ => None
  }
}
