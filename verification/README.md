# Cloth builder and cloth tick, modelled in Dafny

This project models the core of `bevy_silk`, a cloth simulation for the Bevy engine, in two parts.

- **The `ClothBuilder` configuration record** (`cloth_builder.dfy`). This covers its fluent setters and `anchored_vertex_ids`. That function decides which mesh vertices are anchored to the owner's transform and with which `VertexAnchor`. It merges three sources into one map with `HashMap::extend`, in this order:
  1. the explicit id map;
  2. vertex colour matches;
  3. position condition matches.

  The merge is modelled as sequential insertion (`MapExtend.ExtendMap`), so a later source overwrites an earlier one. `ClothBuilders.ResolvedAnchor` is an independent reference definition of the outcome: a position match beats a colour match, which beats an explicit id. Among colour pairs, the first pair with the vertex's colour is used. Among position conditions, the last one that holds is used. `anchored_vertex_ids` takes `&self`; in the model it is a pure function of the builder and the mesh, so the builder cannot change.
- **The `Cloth` component** (`cloth.dfy`). This covers `rectangle`, the Verlet step `update_points` and the stick relaxation `update_sticks`. The relaxation runs `sticks_computation_depth` passes. Each pass folds `StickStep` over the sticks in order, and each stick sees the writes of the sticks before it.

Positions are `real` 3-vectors (`vectors.dfy`), so every identity is proved in exact arithmetic. The mesh attributes that anchor resolution reads are in `mesh.dfy`.

Engine functions whose code is outside the model are parameters:
- `Point::position` under the tick's transform matrix, `Point::is_fixed` and `Vec3::try_normalize` are the fields of `Cloths.Engine`;
- `friction_coefficient()` is the `friction` field of `Cloths.ClothConfig`;
- `Color::from` and `Color::rgba_u8` are the fields of `MeshAttributes.ColorConversions`;
- position conditions are Dafny functions `Vec3 -> bool`.

Facts about bevy_silk's code that shape the model:
- **Anchor precedence.** Each source is merged with `HashMap::extend`, which overwrites, so for a vertex matched by several sources the last one wins (src/components/cloth_builder.rs:342, 369; `ClothBuilders.AnchoredVertexIds`).
- **Endpoint placement.** A dynamic endpoint A is set to `center + direction` and B to `center - direction` (src/cloth.rs:107, 115). As a result, a stick that already lies at its rest length between two free points has its endpoints exchanged (`Cloths.RestingStickSwapsEndpoints`).
- **Gravity scaling.** Gravity is scaled once by `delta_time` (src/cloth.rs:42, 53), so a point at rest moves by `gravity * delta_time` (`Cloths.AtRestFallsByGravityTimesDelta`).
- **Over-tension.** The doc comment of `max_tension` (src/cloth.rs:17-19) says sticks break under too much tension, but the branch that compares the distance with the limit is empty (src/cloth.rs:82-87), so no stick is ever removed (`Cloths.UpdateSticks`).
- **Point representation.** A point is tagged: `Dynamic` with an optional old position, or `Fixed` (`Cloths.Point`).

## Model

| member | source | states |
|---|---|---|
| ClothBuilders.New | src/components/cloth_builder.rs:49-53 | a new builder has no explicit ids, no anchor colours and no position conditions |
| ClothBuilders.WithFixedPoints | src/components/cloth_builder.rs:64-68 | the deprecated method yields exactly the builder `with_pinned_vertex_ids` yields |
| ClothBuilders.WithPinnedVertexIds | src/components/cloth_builder.rs:78-82 | every listed id maps to the default anchor, overwriting any earlier entry; other ids keep their anchors; no other key appears; no other field changes |
| ClothBuilders.WithPinnedVertexId | src/components/cloth_builder.rs:92-96 | the id maps to the default anchor, overwriting any earlier entry; every other id and every other field is unchanged |
| ClothBuilders.WithAnchoredVertexIds | src/components/cloth_builder.rs:105-113 | every listed id maps to the given anchor; other ids keep theirs; no other field changes |
| ClothBuilders.WithAnchoredVertexId | src/components/cloth_builder.rs:122-129 | the id maps to the given anchor, overwriting; everything else is unchanged |
| ClothBuilders.PinnedIsDefaultAnchored | src/components/cloth_builder.rs:78-129 | pinning ids gives the same builder as anchoring them with the default anchor |
| ClothBuilders.WithPinnedVertexColors | src/components/cloth_builder.rs:138-142 | the old colour list is a prefix of the new one, and the new colours follow it in order, each with the default anchor (duplicates kept); no other field changes |
| ClothBuilders.WithPinnedVertexColor | src/components/cloth_builder.rs:151-155 | appends exactly one `(colour, default anchor)` pair after the old list; no other field changes |
| ClothBuilders.WithAnchoredVertexColors | src/components/cloth_builder.rs:165-173 | the old list is a prefix; the new colours follow in order with the given anchor; no other field changes |
| ClothBuilders.WithAnchoredVertexColor | src/components/cloth_builder.rs:182-190 | appends exactly one `(colour, anchor)` pair; no other field changes |
| ClothBuilders.WithPinnedVertexPositions | src/components/cloth_builder.rs:208-210 | the same builder as anchoring the condition with the default anchor |
| ClothBuilders.WithAnchoredVertexPositions | src/components/cloth_builder.rs:229-237 | the condition list grows by exactly one, the old list is a prefix and the last entry is the new condition with its anchor; no other field changes |
| ClothBuilders.WithStickGeneration | src/components/cloth_builder.rs:245-248 | sets the stick generation option and changes no other field |
| ClothBuilders.WithStickMode | src/components/cloth_builder.rs:256-259 | sets the default stick mode and changes no other field |
| ClothBuilders.WithStickLength | src/components/cloth_builder.rs:267-270 | sets the stick length option and changes no other field |
| ClothBuilders.WithoutNormalComputation | src/components/cloth_builder.rs:275-278 | selects no normal computation and changes no other field |
| ClothBuilders.WithSmoothNormalComputation | src/components/cloth_builder.rs:284-287 | the deprecated method yields exactly the builder `with_smooth_normals` yields |
| ClothBuilders.WithSmoothNormals | src/components/cloth_builder.rs:291-294 | selects smooth normals and changes no other field |
| ClothBuilders.WithFlatNormalComputation | src/components/cloth_builder.rs:300-303 | the deprecated method yields exactly the builder `with_flat_normals` yields |
| ClothBuilders.WithFlatNormals | src/components/cloth_builder.rs:307-310 | selects flat normals and changes no other field |
| MeshAttributes.VertexColors | src/components/cloth_builder.rs:323-338 | colours exist exactly when the colour attribute is present as Float32x3, Float32x4 or Uint8x4; then there is one converted colour per stored value, in order |
| MeshAttributes.VertexPositions | src/components/cloth_builder.rs:358-365 | positions exist exactly when the position attribute is present as Float32x3, and are its values |
| MapExtend.Lookup | src/components/cloth_builder.rs:342 | the value found for a key is carried by a pair with that key, and no later pair has that key; it is found exactly when some pair has the key |
| MapExtend.ExtendMap | src/components/cloth_builder.rs:342 | after `extend`, a key is present exactly when it was before or some pair has it; its value comes from the last such pair, and is the old value when there is none |
| ClothBuilders.FirstColorAnchor | src/components/cloth_builder.rs:343-346 | `find` gives the anchor of a configured pair with that colour such that no earlier pair has the colour; it finds one exactly when some pair has the colour |
| ClothBuilders.LastConditionAnchor | src/components/cloth_builder.rs:369-373 | gives the anchor of a condition that holds such that no later condition holds; it gives one exactly when some condition holds |
| ClothBuilders.AnchoredVertexIds | src/components/cloth_builder.rs:320-384 | for every vertex, membership and anchor agree with the reference precedence: the last matching position condition, else the first matching colour pair, else the explicit id |
| ClothBuilders.AnchoredKeysComeFromSources | src/components/cloth_builder.rs:320-384 | the result keeps every explicit id; every other key indexes a vertex of the usable colour attribute or of the usable position attribute |
| ClothBuilders.ColorPassLookup | src/components/cloth_builder.rs:322-356 | after the colour pass, a vertex carries its colour anchor if it has one, and otherwise its explicit entry |
| ClothBuilders.PositionPassLookup | src/components/cloth_builder.rs:357-382 | after the position pass, a vertex carries its position anchor if it has one, and otherwise its previous entry |
| ClothBuilders.ColorMatchTakesFirstPair | src/components/cloth_builder.rs:342-347 | a colour-matched vertex with no position match takes the anchor of the first pair with its colour, even over an explicit id |
| ClothBuilders.LastPositionConditionWins | src/components/cloth_builder.rs:369-373 | a vertex matched by condition j, with no later condition matching, takes j's anchor whatever the colour and id sources say |
| ClothBuilders.UnmatchedVertexKeepsExplicitEntry | src/components/cloth_builder.rs:321 | a vertex matched by neither colour nor position is anchored exactly when it is listed explicitly, and then with the listed anchor |
| ClothBuilders.UnusableColorSourceAddsNothing | src/components/cloth_builder.rs:322-356 | with no colours configured, or a colour attribute that is missing or in another encoding, the result equals the one without any colour configuration |
| ClothBuilders.UnusablePositionSourceAddsNothing | src/components/cloth_builder.rs:357-382 | with no conditions, or a position attribute that is missing or not Float32x3, the result equals the one without any conditions |
| Cloths.RowsAt | src/cloth.rs:26-33 | the flattened rows put the point of column x, row y at row-major index `size_x * y + x`, with position `((x+1)·step, 0, (y+1)·step)` |
| Cloths.Rectangle | src/cloth.rs:25-39 | exactly `size_x * size_y` points, all dynamic with no old position, laid out row-major with spacing `step`; no sticks; no tension limit |
| Cloths.IntegratePoint | src/cloth.rs:45-55 | a non-dynamic point is returned unchanged; a dynamic one stays dynamic and its old position becomes its prior position |
| Cloths.VerletVelocity | src/cloth.rs:42-53 | after a step, the implicit velocity of a dynamic point is its earlier velocity (zero without an old position) scaled by `friction * dt`, plus `gravity * dt` |
| Cloths.ZeroDeltaTimeKeepsPositions | src/cloth.rs:42-53 | with `dt = 0` a dynamic point's position does not move |
| Cloths.AtRestFallsByGravityTimesDelta | src/cloth.rs:42-53 | a point at rest moves by exactly `gravity * dt`, so gravity is scaled by `dt` and not `dt²` |
| Cloths.UpdatePoints | src/cloth.rs:41-56 | keeps the number and kind of points; non-dynamic points, sticks and the tension limit are untouched; every point is integrated |
| Cloths.MoveDynamic | src/cloth.rs:101-116 | writing an endpoint changes only that index, and only when the point there is dynamic |
| Cloths.StickStep | src/cloth.rs:61-117 | one stick writes no non-dynamic point and no point other than its two endpoints; a stick with an endpoint out of range changes nothing |
| Cloths.NormalizeFailureChangesNothing | src/cloth.rs:94-98 | when normalising the endpoint difference fails, the stick changes no point |
| Cloths.CoincidentEndpointsChangeNothing | src/cloth.rs:94-98 | when the two effective positions coincide, the stick changes no point (for a normalisation that fails on zero) |
| Cloths.ProcessedStickPlacesEndpoints | src/cloth.rs:88-116 | a dynamic A moves to target·dir past the centre and a dynamic B to target·dir before it; each written endpoint's old position is its prior position; target is length/2 when the fixed flags agree and the full length otherwise |
| Cloths.ProcessedStickKeepsMidpoint | src/cloth.rs:93-116 | with two distinct dynamic endpoints, the sum of the new positions equals the sum of the effective positions |
| Cloths.ProcessedStickSeparation | src/cloth.rs:88-116 | with equal fixed flags, two distinct dynamic endpoints end up exactly the stick length apart along the normalised direction |
| Cloths.RestingStickSwapsEndpoints | src/cloth.rs:101-116 | a stick already at its length between two dynamic endpoints has them exchanged |
| Cloths.PassKeepsFixedPoints | src/cloth.rs:61-117 | one pass keeps the point count and each point's kind, never writes a non-dynamic point, and never changes a point that is no stick's endpoint |
| Cloths.RelaxKeepsFixedPoints | src/cloth.rs:60-118 | the same holds for any number of passes |
| Cloths.RelaxCompose | src/cloth.rs:60 | m passes followed by n passes equal m + n passes |
| Cloths.OutOfRangeSticksIgnored | src/cloth.rs:62-81 | a pass gives the same points when the sticks with an out-of-range endpoint are removed |
| Cloths.UpdateSticks | src/cloth.rs:58-119 | runs the configured number of passes; sticks, point count and tension limit are unchanged; non-dynamic points are never written; depth 0 changes nothing; the result does not depend on the tension limit |

## Left out

- Tension check (src/cloth.rs:82-87): the branch taken when a stick is over-tensioned is empty, so the comparison is not modelled. The Euclidean distance would need a square root.
- IEEE `f32` rounding: all arithmetic is exact real arithmetic. The order of the operations follows the Rust code.
- Cloths.StickStep: does not state that sticks converge to their rest length. That would need distances, square roots and float analysis.
- `Point::position`, `Point::is_fixed`, `Vec3::try_normalize`, `GlobalTransform::compute_matrix` and `ClothConfig::friction_coefficient` are defined outside the modelled files. They are parameters. Where a lemma needs `try_normalize` to fail on the zero vector, its precondition says so.
- `Point`, `Stick`, `ClothConfig`, `VertexAnchor`, `StickGeneration`, `StickMode`, `StickLen` and `NormalComputing` are also defined outside the modelled files. `VertexAnchor` and the three stick enums are opaque tagged values. `NormalComputing` has only the three variants the builder names.
- ClothBuilders.New: the default values of the four option enums are placeholders, because their `Default` implementations are not part of this model.
- Colour conversions (`Color::from`, `Color::rgba_u8`) are arbitrary functions. Only equality of the resulting colours matters.
- `Mesh` storage: only the colour and position attributes that anchor resolution reads are modelled. Attributes in encodings that are not accepted are modelled without their values.
- Logging: every `log::warn!` path is modelled as "no change".
- Iterator arguments are finite sequences. `usize` indices are unbounded `nat`s, because nothing here overflows.
- Reflection, `Component` and `Default` derives, and `Arc`/`Send + Sync` closures are engine plumbing. A shared condition is a plain Dafny function.
- The caller that runs `update_points` and then `update_sticks` each frame is not part of this model. Neither are mesh binding, write-back and normal computation.
