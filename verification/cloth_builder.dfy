/**
 The cloth builder: a plain configuration record with fluent setters, and the
 resolution of which mesh vertices are anchored to the owner's transform.

 Anchors come from three sources, merged in this order into one map with
 `HashMap::extend`, so a later source overwrites an earlier one for the same
 vertex: the explicit id map, then vertex colour matches, then position
 condition matches.
 */
module ClothBuilders {
  import opened Options
  import opened Vectors
  import opened MapExtend
  import opened MeshAttributes

  /** How an anchored vertex follows the transform; opaque here, compared by equality. */
  datatype VertexAnchor = VertexAnchor(tag: nat)

  /** `VertexAnchor::default()`. */
  const DefaultAnchor: VertexAnchor := VertexAnchor(0)

  /** Option enums defined outside the builder; opaque here. */
  datatype StickGeneration = StickGeneration(tag: nat)
  datatype StickLen = StickLen(tag: nat)
  datatype StickMode = StickMode(tag: nat)

  /** The three normal computing modes the builder selects between. */
  datatype NormalComputing = NoNormals | SmoothNormals | FlatNormals

  /** A position predicate together with the anchor it assigns. */
  datatype PositionCondition = PositionCondition(holds: Vec3 -> bool, anchor: VertexAnchor)

  datatype ClothBuilder = ClothBuilder(
    anchoredVertexIds: map<nat, VertexAnchor>,
    anchoredVertexColors: seq<(Color, VertexAnchor)>,
    anchoredPositionConditions: seq<PositionCondition>,
    stickGeneration: StickGeneration,
    stickLength: StickLen,
    normalsComputing: NormalComputing,
    defaultStickMode: StickMode)

  /** `ClothBuilder::new()`: no anchors of any kind, default options. */
  function New(): (b: ClothBuilder)
    ensures b.anchoredVertexIds == map[]
    ensures b.anchoredVertexColors == [] && b.anchoredPositionConditions == []
  {
    ClothBuilder(map[], [], [], StickGeneration(0), StickLen(0), SmoothNormals, StickMode(0))
  }

  // ---------------------------------------------------------------------------
  // Explicit vertex ids

  /** `with_fixed_points` (deprecated): the same builder as `with_pinned_vertex_ids`. */
  function WithFixedPoints(b: ClothBuilder, fixedPoints: seq<nat>): (r: ClothBuilder)
    ensures r == WithPinnedVertexIds(b, fixedPoints)
  {
    b.(anchoredVertexIds := ExtendMap(b.anchoredVertexIds, PairAll(fixedPoints, DefaultAnchor)))
  }

  /**
   `with_pinned_vertex_ids`: every listed id maps to the default anchor, every
   other id keeps its anchor, and no other field changes.
   */
  function WithPinnedVertexIds(b: ClothBuilder, pinnedIds: seq<nat>): (r: ClothBuilder)
    ensures AllInserted(b.anchoredVertexIds, r.anchoredVertexIds, pinnedIds, DefaultAnchor)
    ensures r == b.(anchoredVertexIds := r.anchoredVertexIds)
  {
    ExtendPairAll(b.anchoredVertexIds, pinnedIds, DefaultAnchor);
    b.(anchoredVertexIds := ExtendMap(b.anchoredVertexIds, PairAll(pinnedIds, DefaultAnchor)))
  }

  /** `with_pinned_vertex_id`: the id maps to the default anchor, overwriting any earlier one. */
  function WithPinnedVertexId(b: ClothBuilder, pinnedId: nat): (r: ClothBuilder)
    ensures AllInserted(b.anchoredVertexIds, r.anchoredVertexIds, [pinnedId], DefaultAnchor)
    ensures r == b.(anchoredVertexIds := r.anchoredVertexIds)
  {
    b.(anchoredVertexIds := b.anchoredVertexIds[pinnedId := DefaultAnchor])
  }

  /** `with_anchored_vertex_ids`: every listed id maps to `anchor`, all else is kept. */
  function WithAnchoredVertexIds(b: ClothBuilder, vertexIds: seq<nat>, anchor: VertexAnchor): (r: ClothBuilder)
    ensures AllInserted(b.anchoredVertexIds, r.anchoredVertexIds, vertexIds, anchor)
    ensures r == b.(anchoredVertexIds := r.anchoredVertexIds)
  {
    ExtendPairAll(b.anchoredVertexIds, vertexIds, anchor);
    b.(anchoredVertexIds := ExtendMap(b.anchoredVertexIds, PairAll(vertexIds, anchor)))
  }

  /** `with_anchored_vertex_id`: the id maps to `anchor`, overwriting any earlier one. */
  function WithAnchoredVertexId(b: ClothBuilder, vertexId: nat, anchor: VertexAnchor): (r: ClothBuilder)
    ensures AllInserted(b.anchoredVertexIds, r.anchoredVertexIds, [vertexId], anchor)
    ensures r == b.(anchoredVertexIds := r.anchoredVertexIds)
  {
    b.(anchoredVertexIds := b.anchoredVertexIds[vertexId := anchor])
  }

  /** Pinning is anchoring with the default anchor. */
  lemma PinnedIsDefaultAnchored(b: ClothBuilder, ids: seq<nat>)
    ensures WithPinnedVertexIds(b, ids) == WithAnchoredVertexIds(b, ids, DefaultAnchor)
    ensures forall id :: WithPinnedVertexId(b, id) == WithAnchoredVertexId(b, id, DefaultAnchor)
  {
  }

  // ---------------------------------------------------------------------------
  // Vertex colours

  /**
   The colour list only grows at its end: the old list is a prefix of the new
   one and each added colour comes with `anchor`, in order. Duplicates are kept.
   */
  ghost predicate ColorsAppended(
    before: seq<(Color, VertexAnchor)>, after: seq<(Color, VertexAnchor)>,
    colors: seq<Color>, anchor: VertexAnchor)
  {
    && |after| == |before| + |colors|
    && after[..|before|] == before
    && forall j :: 0 <= j < |colors| ==> after[|before| + j] == (colors[j], anchor)
  }

  /** `with_pinned_vertex_colors`: appends each colour with the default anchor. */
  function WithPinnedVertexColors(b: ClothBuilder, vertexColors: seq<Color>): (r: ClothBuilder)
    ensures ColorsAppended(b.anchoredVertexColors, r.anchoredVertexColors, vertexColors, DefaultAnchor)
    ensures r == b.(anchoredVertexColors := r.anchoredVertexColors)
  {
    b.(anchoredVertexColors := b.anchoredVertexColors + PairAll(vertexColors, DefaultAnchor))
  }

  /** `with_pinned_vertex_color`: appends one colour with the default anchor. */
  function WithPinnedVertexColor(b: ClothBuilder, vertexColor: Color): (r: ClothBuilder)
    ensures ColorsAppended(b.anchoredVertexColors, r.anchoredVertexColors, [vertexColor], DefaultAnchor)
    ensures r == b.(anchoredVertexColors := r.anchoredVertexColors)
  {
    b.(anchoredVertexColors := b.anchoredVertexColors + [(vertexColor, DefaultAnchor)])
  }

  /** `with_anchored_vertex_colors`: appends each colour with `anchor`. */
  function WithAnchoredVertexColors(b: ClothBuilder, vertexColors: seq<Color>, anchor: VertexAnchor): (r: ClothBuilder)
    ensures ColorsAppended(b.anchoredVertexColors, r.anchoredVertexColors, vertexColors, anchor)
    ensures r == b.(anchoredVertexColors := r.anchoredVertexColors)
  {
    b.(anchoredVertexColors := b.anchoredVertexColors + PairAll(vertexColors, anchor))
  }

  /** `with_anchored_vertex_color`: appends one colour with `anchor`. */
  function WithAnchoredVertexColor(b: ClothBuilder, vertexColor: Color, anchor: VertexAnchor): (r: ClothBuilder)
    ensures ColorsAppended(b.anchoredVertexColors, r.anchoredVertexColors, [vertexColor], anchor)
    ensures r == b.(anchoredVertexColors := r.anchoredVertexColors)
  {
    b.(anchoredVertexColors := b.anchoredVertexColors + [(vertexColor, anchor)])
  }

  // ---------------------------------------------------------------------------
  // Position conditions

  /** `with_anchored_vertex_positions`: appends one condition with `anchor`. */
  function WithAnchoredVertexPositions(b: ClothBuilder, condition: Vec3 -> bool, anchor: VertexAnchor): (r: ClothBuilder)
    ensures |r.anchoredPositionConditions| == |b.anchoredPositionConditions| + 1
    ensures r.anchoredPositionConditions[..|b.anchoredPositionConditions|] == b.anchoredPositionConditions
    ensures r.anchoredPositionConditions[|b.anchoredPositionConditions|] == PositionCondition(condition, anchor)
    ensures r == b.(anchoredPositionConditions := r.anchoredPositionConditions)
  {
    b.(anchoredPositionConditions := b.anchoredPositionConditions + [PositionCondition(condition, anchor)])
  }

  /** `with_pinned_vertex_positions`: the same as anchoring with the default anchor. */
  function WithPinnedVertexPositions(b: ClothBuilder, condition: Vec3 -> bool): (r: ClothBuilder)
    ensures r == WithAnchoredVertexPositions(b, condition, DefaultAnchor)
  {
    b.(anchoredPositionConditions := b.anchoredPositionConditions + [PositionCondition(condition, DefaultAnchor)])
  }

  // ---------------------------------------------------------------------------
  // Single-field options

  /** `with_stick_generation`: sets that one option. */
  function WithStickGeneration(b: ClothBuilder, stickGeneration: StickGeneration): (r: ClothBuilder)
    ensures r.stickGeneration == stickGeneration
    ensures r == b.(stickGeneration := r.stickGeneration)
  {
    b.(stickGeneration := stickGeneration)
  }

  /** `with_stick_mode`: sets the default stick mode only. */
  function WithStickMode(b: ClothBuilder, stickMode: StickMode): (r: ClothBuilder)
    ensures r.defaultStickMode == stickMode
    ensures r == b.(defaultStickMode := r.defaultStickMode)
  {
    b.(defaultStickMode := stickMode)
  }

  /** `with_stick_length`: sets the stick length option only. */
  function WithStickLength(b: ClothBuilder, stickLen: StickLen): (r: ClothBuilder)
    ensures r.stickLength == stickLen
    ensures r == b.(stickLength := r.stickLength)
  {
    b.(stickLength := stickLen)
  }

  /** `without_normal_computation`: normals are no longer computed. */
  function WithoutNormalComputation(b: ClothBuilder): (r: ClothBuilder)
    ensures r.normalsComputing == NoNormals
    ensures r == b.(normalsComputing := r.normalsComputing)
  {
    b.(normalsComputing := NoNormals)
  }

  /** `with_smooth_normals`. */
  function WithSmoothNormals(b: ClothBuilder): (r: ClothBuilder)
    ensures r.normalsComputing == SmoothNormals
    ensures r == b.(normalsComputing := r.normalsComputing)
  {
    b.(normalsComputing := SmoothNormals)
  }

  /** `with_smooth_normal_computation` (deprecated): identical to `with_smooth_normals`. */
  function WithSmoothNormalComputation(b: ClothBuilder): (r: ClothBuilder)
    ensures r == WithSmoothNormals(b)
  {
    b.(normalsComputing := SmoothNormals)
  }

  /** `with_flat_normals`. */
  function WithFlatNormals(b: ClothBuilder): (r: ClothBuilder)
    ensures r.normalsComputing == FlatNormals
    ensures r == b.(normalsComputing := r.normalsComputing)
  {
    b.(normalsComputing := FlatNormals)
  }

  /** `with_flat_normal_computation` (deprecated): identical to `with_flat_normals`. */
  function WithFlatNormalComputation(b: ClothBuilder): (r: ClothBuilder)
    ensures r == WithFlatNormals(b)
  {
    b.(normalsComputing := FlatNormals)
  }

  // ---------------------------------------------------------------------------
  // Anchor resolution

  /**
   The anchor of the FIRST configured pair whose colour equals `c`
   (`iter().find(..)`), if any.
   */
  function FirstColorAnchor(table: seq<(Color, VertexAnchor)>, c: Color): (r: Option<VertexAnchor>)
    ensures r.Some? <==> exists j :: 0 <= j < |table| && table[j].0 == c
    ensures r.Some? ==>
      exists j :: 0 <= j < |table| && table[j] == (c, r.value)
        && forall j' :: 0 <= j' < j ==> table[j'].0 != c
  {
    if |table| == 0 then None
    else if table[0].0 == c then Some(table[0].1)
    else
      var r := FirstColorAnchor(table[1..], c);
      assert forall j :: 0 < j < |table| ==> table[j] == table[1..][j - 1];
      r
  }

  /** The anchor of the LAST condition that holds at `pos`, if any. */
  function LastConditionAnchor(conds: seq<PositionCondition>, pos: Vec3): (r: Option<VertexAnchor>)
    ensures r.Some? <==> exists j :: 0 <= j < |conds| && conds[j].holds(pos)
    ensures r.Some? ==>
      exists j :: 0 <= j < |conds| && conds[j].holds(pos) && conds[j].anchor == r.value
        && forall j' :: j < j' < |conds| ==> !conds[j'].holds(pos)
  {
    if |conds| == 0 then None
    else if conds[|conds| - 1].holds(pos) then Some(conds[|conds| - 1].anchor)
    else
      var r := LastConditionAnchor(conds[..|conds| - 1], pos);
      assert forall j :: 0 <= j < |conds| - 1 ==> conds[..|conds| - 1][j] == conds[j];
      r
  }

  /**
   The pairs the colour pass feeds to `extend`: `(i, anchor)` for each vertex
   `i`, in vertex order, whose colour has a configured anchor.
   */
  function ColorPairs(colors: seq<Color>, table: seq<(Color, VertexAnchor)>): (r: seq<(nat, VertexAnchor)>)
    ensures forall j :: 0 <= j < |r| ==> r[j].0 < |colors|
  {
    if |colors| == 0 then []
    else
      var i := |colors| - 1;
      ColorPairs(colors[..i], table) + ColorPair(i, colors[i], table)
  }

  /** The pair vertex `i` of colour `c` contributes to the colour pass, if any. */
  function ColorPair(i: nat, c: Color, table: seq<(Color, VertexAnchor)>): seq<(nat, VertexAnchor)> {
    match FirstColorAnchor(table, c)
    case Some(a) => [(i, a)]
    case None => []
  }

  /** The pairs one vertex `i` at `pos` contributes: one per holding condition, in order. */
  function ConditionPairs(i: nat, pos: Vec3, conds: seq<PositionCondition>): (r: seq<(nat, VertexAnchor)>)
    ensures forall j :: 0 <= j < |r| ==> r[j].0 == i
  {
    if |conds| == 0 then []
    else
      var last := conds[|conds| - 1];
      ConditionPairs(i, pos, conds[..|conds| - 1]) + (if last.holds(pos) then [(i, last.anchor)] else [])
  }

  /** The pairs the position pass feeds to `extend` (`enumerate().flat_map(..)`). */
  function PositionPairs(positions: seq<Vec3>, conds: seq<PositionCondition>): (r: seq<(nat, VertexAnchor)>)
    ensures forall j :: 0 <= j < |r| ==> r[j].0 < |positions|
  {
    if |positions| == 0 then []
    else
      var i := |positions| - 1;
      PositionPairs(positions[..i], conds) + ConditionPairs(i, positions[i], conds)
  }

  lemma {:induction false} LookupColorPairs(colors: seq<Color>, table: seq<(Color, VertexAnchor)>, k: nat)
    ensures Lookup(ColorPairs(colors, table), k) == if k < |colors| then FirstColorAnchor(table, colors[k]) else None
    decreases |colors|
  {
    if |colors| > 0 {
      var i := |colors| - 1;
      var tail := ColorPair(i, colors[i], table);
      assert ColorPairs(colors, table) == ColorPairs(colors[..i], table) + tail;
      LookupAppend(ColorPairs(colors[..i], table), tail, k);
      LookupColorPairs(colors[..i], table, k);
      assert Lookup(tail, k) == if k == i then FirstColorAnchor(table, colors[i]) else None;
    }
  }

  lemma {:induction false} LookupConditionPairs(i: nat, pos: Vec3, conds: seq<PositionCondition>, k: nat)
    ensures Lookup(ConditionPairs(i, pos, conds), k) == if k == i then LastConditionAnchor(conds, pos) else None
    decreases |conds|
  {
    if |conds| > 0 {
      var last := conds[|conds| - 1];
      var tail := if last.holds(pos) then [(i, last.anchor)] else [];
      LookupAppend(ConditionPairs(i, pos, conds[..|conds| - 1]), tail, k);
      LookupConditionPairs(i, pos, conds[..|conds| - 1], k);
    }
  }

  lemma {:induction false} LookupPositionPairs(positions: seq<Vec3>, conds: seq<PositionCondition>, k: nat)
    ensures Lookup(PositionPairs(positions, conds), k) == if k < |positions| then LastConditionAnchor(conds, positions[k]) else None
    decreases |positions|
  {
    if |positions| > 0 {
      var i := |positions| - 1;
      assert PositionPairs(positions, conds) == PositionPairs(positions[..i], conds) + ConditionPairs(i, positions[i], conds);
      LookupAppend(PositionPairs(positions[..i], conds), ConditionPairs(i, positions[i], conds), k);
      LookupConditionPairs(i, positions[i], conds, k);
      LookupPositionPairs(positions[..i], conds, k);
    }
  }

  /** The anchor vertex `k` gets from the colour source, if the mesh has usable colours. */
  function ColorAnchor(b: ClothBuilder, mesh: Mesh, conv: ColorConversions, k: nat): Option<VertexAnchor> {
    match VertexColors(mesh, conv)
    case Some(colors) => if k < |colors| then FirstColorAnchor(b.anchoredVertexColors, colors[k]) else None
    case None => None
  }

  /** The anchor vertex `k` gets from the position source, if the mesh has usable positions. */
  function PositionAnchor(b: ClothBuilder, mesh: Mesh, k: nat): Option<VertexAnchor> {
    match VertexPositions(mesh)
    case Some(positions) => if k < |positions| then LastConditionAnchor(b.anchoredPositionConditions, positions[k]) else None
    case None => None
  }

  /**
   Reference definition of the resolved anchor of vertex `k`: a position match
   beats a colour match, which beats an explicit id.
   */
  function ResolvedAnchor(b: ClothBuilder, mesh: Mesh, conv: ColorConversions, k: nat): Option<VertexAnchor> {
    var byPosition := PositionAnchor(b, mesh, k);
    var byColor := ColorAnchor(b, mesh, conv, k);
    if byPosition.Some? then byPosition
    else if byColor.Some? then byColor
    else if k in b.anchoredVertexIds then Some(b.anchoredVertexIds[k])
    else None
  }

  /** The colour pass: the explicit map extended with every colour match. */
  function ColorPass(b: ClothBuilder, mesh: Mesh, conv: ColorConversions): map<nat, VertexAnchor> {
    if |b.anchoredVertexColors| == 0 then b.anchoredVertexIds
    else match VertexColors(mesh, conv) {
      case Some(colors) => ExtendMap(b.anchoredVertexIds, ColorPairs(colors, b.anchoredVertexColors))
      case None => b.anchoredVertexIds
    }
  }

  /** The position pass: `m` extended with every position condition match. */
  function PositionPass(b: ClothBuilder, mesh: Mesh, m: map<nat, VertexAnchor>): map<nat, VertexAnchor> {
    if |b.anchoredPositionConditions| == 0 then m
    else match VertexPositions(mesh) {
      case Some(positions) => ExtendMap(m, PositionPairs(positions, b.anchoredPositionConditions))
      case None => m
    }
  }

  lemma ColorPassLookup(b: ClothBuilder, mesh: Mesh, conv: ColorConversions, k: nat)
    ensures k in ColorPass(b, mesh, conv) <==> ColorAnchor(b, mesh, conv, k).Some? || k in b.anchoredVertexIds
    ensures k in ColorPass(b, mesh, conv) ==>
      ColorPass(b, mesh, conv)[k]
        == if ColorAnchor(b, mesh, conv, k).Some? then ColorAnchor(b, mesh, conv, k).value else b.anchoredVertexIds[k]
  {
    if VertexColors(mesh, conv).Some? {
      LookupColorPairs(VertexColors(mesh, conv).value, b.anchoredVertexColors, k);
    }
  }

  lemma PositionPassLookup(b: ClothBuilder, mesh: Mesh, m: map<nat, VertexAnchor>, k: nat)
    ensures k in PositionPass(b, mesh, m) <==> PositionAnchor(b, mesh, k).Some? || k in m
    ensures k in PositionPass(b, mesh, m) ==>
      PositionPass(b, mesh, m)[k] == if PositionAnchor(b, mesh, k).Some? then PositionAnchor(b, mesh, k).value else m[k]
  {
    if VertexPositions(mesh).Some? {
      LookupPositionPairs(VertexPositions(mesh).value, b.anchoredPositionConditions, k);
    }
  }

  /** The two passes together agree with the precedence of `ResolvedAnchor` on every vertex. */
  lemma PassesResolve(b: ClothBuilder, mesh: Mesh, conv: ColorConversions)
    ensures forall k: nat :: k in PositionPass(b, mesh, ColorPass(b, mesh, conv)) <==> ResolvedAnchor(b, mesh, conv, k).Some?
    ensures forall k: nat :: k in PositionPass(b, mesh, ColorPass(b, mesh, conv)) ==>
      PositionPass(b, mesh, ColorPass(b, mesh, conv))[k] == ResolvedAnchor(b, mesh, conv, k).value
  {
    var res := PositionPass(b, mesh, ColorPass(b, mesh, conv));
    forall k: nat
      ensures k in res <==> ResolvedAnchor(b, mesh, conv, k).Some?
      ensures k in res ==> res[k] == ResolvedAnchor(b, mesh, conv, k).value
    {
      ColorPassLookup(b, mesh, conv, k);
      PositionPassLookup(b, mesh, ColorPass(b, mesh, conv), k);
    }
  }

  /**
   `anchored_vertex_ids(&self, mesh)`: the explicit map, extended first with
   the colour matches and then with the position matches. A source with an
   empty configuration, or whose mesh attribute is missing or unusable, adds
   nothing (bevy_silk logs a warning in the latter case). For every vertex,
   membership and anchor agree with the precedence of `ResolvedAnchor`.
   */
  function AnchoredVertexIds(b: ClothBuilder, mesh: Mesh, conv: ColorConversions): (res: map<nat, VertexAnchor>)
    ensures forall k: nat :: k in res <==> ResolvedAnchor(b, mesh, conv, k).Some?
    ensures forall k: nat :: k in res ==> res[k] == ResolvedAnchor(b, mesh, conv, k).value
  {
    PassesResolve(b, mesh, conv);
    PositionPass(b, mesh, ColorPass(b, mesh, conv))
  }

  /**
   The result keeps every explicit id, and every other key is the index of a
   vertex of the usable colour attribute or of the usable position attribute.
   */
  lemma AnchoredKeysComeFromSources(b: ClothBuilder, mesh: Mesh, conv: ColorConversions)
    ensures b.anchoredVertexIds.Keys <= AnchoredVertexIds(b, mesh, conv).Keys
    ensures forall k :: k in AnchoredVertexIds(b, mesh, conv) && k !in b.anchoredVertexIds ==>
      || (VertexColors(mesh, conv).Some? && k < |VertexColors(mesh, conv).value|)
      || (VertexPositions(mesh).Some? && k < |VertexPositions(mesh).value|)
  {
  }

  /**
   A colour-matched vertex with no matching position condition takes the
   anchor of the first configured pair with its colour, even over an explicit id.
   */
  lemma ColorMatchTakesFirstPair(b: ClothBuilder, mesh: Mesh, conv: ColorConversions, k: nat, j: nat)
    requires VertexColors(mesh, conv).Some? && k < |VertexColors(mesh, conv).value|
    requires j < |b.anchoredVertexColors|
    requires b.anchoredVertexColors[j].0 == VertexColors(mesh, conv).value[k]
    requires forall j' :: 0 <= j' < j ==> b.anchoredVertexColors[j'].0 != b.anchoredVertexColors[j].0
    requires PositionAnchor(b, mesh, k).None?
    ensures k in AnchoredVertexIds(b, mesh, conv)
    ensures AnchoredVertexIds(b, mesh, conv)[k] == b.anchoredVertexColors[j].1
  {
  }

  /**
   A vertex whose position satisfies condition `j` and no later condition
   takes condition `j`'s anchor, whatever the colour and id sources say.
   */
  lemma LastPositionConditionWins(b: ClothBuilder, mesh: Mesh, conv: ColorConversions, k: nat, j: nat)
    requires VertexPositions(mesh).Some? && k < |VertexPositions(mesh).value|
    requires j < |b.anchoredPositionConditions|
    requires b.anchoredPositionConditions[j].holds(VertexPositions(mesh).value[k])
    requires forall j' :: j < j' < |b.anchoredPositionConditions| ==>
      !b.anchoredPositionConditions[j'].holds(VertexPositions(mesh).value[k])
    ensures k in AnchoredVertexIds(b, mesh, conv)
    ensures AnchoredVertexIds(b, mesh, conv)[k] == b.anchoredPositionConditions[j].anchor
  {
  }

  /**
   A vertex no colour pair and no position condition matches keeps exactly
   its explicit entry: anchored with its own anchor if listed, absent otherwise.
   */
  lemma UnmatchedVertexKeepsExplicitEntry(b: ClothBuilder, mesh: Mesh, conv: ColorConversions, k: nat)
    requires PositionAnchor(b, mesh, k).None? && ColorAnchor(b, mesh, conv, k).None?
    ensures k in AnchoredVertexIds(b, mesh, conv) <==> k in b.anchoredVertexIds
    ensures k in b.anchoredVertexIds ==> AnchoredVertexIds(b, mesh, conv)[k] == b.anchoredVertexIds[k]
  {
  }

  /**
   No configured colours, or no usable colour attribute: the colour source adds
   nothing, so the result is the one without any colour configuration.
   */
  lemma UnusableColorSourceAddsNothing(b: ClothBuilder, mesh: Mesh, conv: ColorConversions)
    requires |b.anchoredVertexColors| == 0 || VertexColors(mesh, conv).None?
    ensures AnchoredVertexIds(b, mesh, conv) == AnchoredVertexIds(b.(anchoredVertexColors := []), mesh, conv)
  {
  }

  /**
   No configured conditions, or no float-triple position attribute: the
   position source adds nothing, so the result is the one without conditions.
   */
  lemma UnusablePositionSourceAddsNothing(b: ClothBuilder, mesh: Mesh, conv: ColorConversions)
    requires |b.anchoredPositionConditions| == 0 || VertexPositions(mesh).None?
    ensures AnchoredVertexIds(b, mesh, conv) == AnchoredVertexIds(b.(anchoredPositionConditions := []), mesh, conv)
  {
  }
}
