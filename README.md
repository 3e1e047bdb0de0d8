# 3dconv mesh kernel in Dafny

This project models the core of 3dconv, a converter between 3D mesh file
formats, and proves properties of that model. The core is its mesh kernel:

- **Bitsets** (`bitset.dfy`): the word-packed bit set that connectivity checks use. It is a
  class over an array of words, and its word width `W` is a constructor parameter.
- **Faces** (`faces.dfy`, `face_order.dfy`): a Face is an ordered list of vertex indices into
  the Model, with optional parallel texture-vertex and vertex-normal index lists, a cached
  normal and a weak reference to its Model.
  - The reference is modelled as `owner: Option<object>`; `None` means expired.
  - `face_order.dfy` models the Face ordering that `std::set<Face>` uses.
- **Model** (`mesh.dfy`): the append-only vertex lists, the set of faces, and the cache flags
  (`is_triangulated_`, `is_validated_`, the `recalc_*` flags). Its operations are
  `add_*`, `add_face`, `validate`, `convexify_faces`, `triangulate` and the cached
  `is_connected` / `is_convex` / `is_watertight` queries.
- **Geometry steps**, each in its own file:
  - the convexification split into inner and outer index runs (`convexify.dfy`);
  - the zig-zag triangulation index generator (`zigzag.dfy`);
  - the Bitset merging of `check_connectivity` (`connectivity.dfy`);
  - the edge-counting and vertex-link steps of `check_water_tightness` (`watertight.dfy`).
- **Small algebra and encoding**: the matrix and vector algebra of `linalg.hpp`
  (`linalg.dfy`, over `int` with C++'s truncating `/` and `%`) and the endian byte encoder
  `uint2bytes` (`endian.dfy`).
- **Around the kernel**:
  - the string parsers of the command line (`cli.dfy`);
  - the OBJ statement and face-group parser (`obj.dfy`);
  - the binary STL writer's byte layout (`stl_bin.dfy`).
- **Shared pieces**: `wrappers.dfy` (Option, Result, Outcome), `text.dfy` (decimal
  rendering, `getline` splitting, whitespace words) and `arith.dfy` (nonlinear
  arithmetic facts).

### Floating point

Floating-point geometry is not computed. Each float sign test or vector operation the
kernel relies on is a function-typed parameter:

- the side test of convexification;
- the distance, cross product and normalisation of `compute_normal`;
- the number parser `std::stof`;
- the self-intersection verdict and the concave-vertex verdict;
- the float-to-bytes encoding of the STL writer.

What is proved is the combinatorics built on top of these parameters.

### Duplicate source and the side test

`src/model.cpp` repeats `src/model/face.cpp` and `src/model/model.cpp` in one file. The
model follows the split files and cites both. The two differ in one place: the
convexification side test counts a vertex as inside when the dot product is `>= 0` in
`src/model/model.cpp` and `> 0` in `src/model.cpp`. That choice is the `SideRule`
parameter (`NonStrict` or `Strict`).

### Face sets

A `std::set<Face>` is modelled as a sequence kept sorted by the lexicographic order of
sorted vertex sets. A face is inserted unless an *equivalent* face (same vertex set, or
at least three shared vertices) is already present. This approximates the red-black
tree, because `Face::operator<` is not a strict weak ordering (`FaceOrder.NotStrictWeakOrder`).

## Model

| member | source | states |
|---|---|---|
| `Bitsets.Bitset.constructor` | src/bitset.cpp:7-13 | a new bitset has n bits of word width W, all clear |
| `Bitsets.Bitset.Copy` | src/bitset.cpp:15-24 | the copy has the same bits in a freshly allocated word array, so later changes to one do not reach the other |
| `Bitsets.Bitset.BitCount` | src/bitset.cpp:32-35 | returns the bit count the bitset was built with |
| `Bitsets.Bitset.Get` | src/bitset.cpp:88-93 | an index below the bit count yields that bit; any other index fails with out_of_range |
| `Bitsets.Bitset.Set` | src/bitset.cpp:95-103 | an in-range set makes bit i equal v and leaves every other bit as it was; an out-of-range index fails and changes nothing |
| `Bitsets.Bitset.Flip` | src/bitset.cpp:105-112 | an in-range flip negates bit i only; an out-of-range index fails and changes nothing |
| `Bitsets.FlipTwice` | src/bitset.cpp:105-112 | flipping the same bit twice restores the words |
| `Bitsets.FlipOneBit` | src/bitset.cpp:105-112 | after a flip, bit i is negated and every other bit reads as before |
| `Bitsets.Bitset.Reset` | src/bitset.cpp:114-121 | afterwards no bit is set |
| `Bitsets.Bitset.All` | src/bitset.cpp:38-53 | all() is the word-wise test against the full mask and the last-word mask `(1 << n % W) - 1` |
| `Bitsets.AllWordsMeaning` | src/bitset.cpp:38-53 | the word-wise test equals the per-bit pattern over the bits |
| `Bitsets.AllMeansEveryBit` | src/bitset.cpp:38-53 | when n is not a multiple of W, all() holds exactly when every bit is set |
| `Bitsets.AllFalseWhenFullAndMultiple` | src/bitset.cpp:10 | when n is a multiple of W, all() is false even with every bit set |
| `Bitsets.IntendedAllMeansEveryBit` | src/bitset.cpp:10 | with the last mask full when n is a multiple of W, all() holds exactly when every bit is set |
| `Bitsets.Bitset.Any` | src/bitset.cpp:56-64 | true exactly when some bit is set |
| `Bitsets.Bitset.None` | src/bitset.cpp:67-75 | true exactly when no bit is set, so it is the negation of any() |
| `Bitsets.AnyMeaning` | src/bitset.cpp:56-64 | some word is non-zero exactly when some bit is set |
| `Bitsets.ZipBitsOf` | src/bitset.cpp:134-195 | combining words with an operator that maps two clear bits to a clear bit combines the bits pointwise and keeps padding zero |
| `Bitsets.Bitset.Combine` | src/bitset.cpp:124-129 | differing bit counts fail with a logic error; otherwise each result bit is the operands' bits combined |
| `Bitsets.Bitset.CombineInPlace` | src/bitset.cpp:145-195 | differing bit counts fail and change nothing; otherwise each bit becomes the operator applied to the two old bits |
| `Bitsets.Bitset.Union` | src/bitset.cpp:134-143 | for equal sizes, each result bit is the `or` of the operands' bits |
| `Bitsets.Bitset.UnionWith` | src/bitset.cpp:145-153 | for equal sizes, each bit becomes the `or` of the two; differing sizes fail and change nothing |
| `Bitsets.Bitset.Intersection` | src/bitset.cpp:155-164 | for equal sizes, each result bit is the `and` of the operands' bits |
| `Bitsets.Bitset.IntersectWith` | src/bitset.cpp:166-174 | for equal sizes, each bit becomes the `and` of the two; differing sizes fail and change nothing |
| `Bitsets.Bitset.SymmetricDifference` | src/bitset.cpp:176-185 | for equal sizes, each result bit is the `xor` of the operands' bits |
| `Bitsets.Bitset.SymmetricDifferenceWith` | src/bitset.cpp:187-195 | for equal sizes, each bit becomes the `xor` of the two; differing sizes fail and change nothing |
| `Faces.AppendIfAbsentKeepsNoDup` | src/model/face.cpp:82-88 | appending only absent indices never introduces a duplicate |
| `Faces.AppendIfAbsentElems` | src/model/face.cpp:82-88 | the indices afterwards are the old ones plus the new one, and an absent index goes last |
| `Faces.AppendIfAbsentIdempotent` | src/model/face.cpp:91-97 | adding the same index twice is the same as adding it once |
| `Faces.Face.constructor` | src/model/face.cpp:16 | a face of a Model starts with no indices and no cached normal |
| `Faces.Face.WithIndices` | src/model/face.cpp:20-29 | the face holds exactly the given index lists |
| `Faces.Face.SubFace` | src/model/face.cpp:31-47 | the sub-face takes the vertices at the given positions, and the texture and normal entries at them only when the original has such lists |
| `Faces.ProjectCompose` | src/model/face.cpp:31-47 | projecting a projection is projecting by the composed positions |
| `Faces.ProjectNoDup` | src/model/face.cpp:31-47 | projecting duplicate-free indices by distinct positions stays duplicate-free |
| `Faces.ProjectElems` | src/model/face.cpp:31-47 | a projection's indices are among the original's |
| `Faces.Face.AddVertex` | src/model/face.cpp:82-88 | the vertex is appended exactly when absent; nothing else changes |
| `Faces.Face.AddTextureVertex` | src/model/face.cpp:91-97 | the texture vertex is appended exactly when absent; nothing else changes |
| `Faces.Face.AddVertexNormal` | src/model/face.cpp:100-102 | the vertex normal is always appended, duplicates included |
| `Faces.Face.SetNormal` | src/model/face.cpp:105-108 | the normal becomes cached as n |
| `Faces.Face.Normal` | src/model/face.cpp:70-77 | a cached normal is returned untouched; otherwise the result is compute_normal's, with all of its failure cases and both of its cross products, cached only on success |
| `Faces.CachedNormal` | src/model/face.cpp:70-77 | the cache is returned when set; otherwise compute_normal's result, with all of its failure cases and both of its cross products, cached only on success |
| `Faces.CachedNormalIsStable` | src/model/face.cpp:70-77 | after a successful normal(), a second normal() on the updated face returns the same result and leaves the face as the first call did; after a failure the second call fails too |
| `Faces.ComputeNormal` | src/model/face.cpp:139-203 | fails with too few vertices, then with an expired Model, then on the first out-of-range vertex; a triangle's normal is the cross product of its corners, a larger face's that of the farthest pair and the vertex farthest from their line, in index order |
| `Faces.FarthestPair` | src/model/face.cpp:162-172 | the nested loop finds the first pair of points at the greatest distance |
| `Faces.FarthestPairUnique` | src/model/face.cpp:162-172 | the first farthest pair is unique |
| `Faces.FarthestFromLine` | src/model/face.cpp:176-187 | the loop finds the first point at the greatest distance from the line |
| `Faces.FarthestFromLineUnique` | src/model/face.cpp:176-187 | the first farthest point from the line is unique |
| `Faces.Sort3` | src/model/face.cpp:190-193 | the three compare-and-swaps leave i0 <= i1 <= i2, a permutation of the selected indices |
| `Faces.SelectCorners` | src/model/face.cpp:176-193 | the corners are the farthest pair and the point farthest from their line, in ascending order |
| `Faces.ValidateFace` | src/model/face.cpp:206-240 | passes exactly when the face has >= 3 vertices, texture and normal lists empty or parallel, a live Model and every index in range; failures are ModelErrors |
| `Faces.ValidateReportsFirstBrokenRule` | src/model/face.cpp:206-240 | the error reported is that of the first of the seven rules the face breaks, in source order |
| `Faces.ValidateMonotone` | src/model/face.cpp:206-240 | a valid face stays valid when the Model's lists grow |
| `Faces.ValidateSubFace` | src/model/face.cpp:31-47 | a sub-face of a valid face by >= 3 in-range positions is valid |
| `Faces.Find` | src/model/face.cpp:82-88 | the position of the first occurrence, or the length when absent |
| `Faces.InsertByKeySorted` | src/model/face.cpp:113-124 | inserting at the key position keeps the faces sorted by vertex set |
| `Faces.InsertByKeyContents` | src/model/face.cpp:113-124 | insertion adds exactly the face to the contents |
| `Faces.InsertByKeyNoEquivalent` | src/model/face.cpp:113-124 | inserting a face with no equivalent keeps a valid face set |
| `Faces.SetInsertKeepsFaceSet` | src/model/model.cpp:97-112 | std::set insert keeps the set sorted and free of equivalent pairs, and afterwards holds a face equivalent to the inserted one |
| `Faces.SetInsertContents` | src/model/model.cpp:97-112 | insert adds at most the new face and drops nothing |
| `Faces.InsertKeepsEquivalent` | src/model/model.cpp:97-112 | a face with an equivalent in the set still has one after an insert |
| `Faces.SetMergeKeepsFaceSet` | src/model/model.cpp:221 | std::set merge keeps a valid face set |
| `Faces.SetMergeKeepsEquivalents` | src/model/model.cpp:221 | a face with an equivalent in the target still has one after a merge |
| `Faces.SetMergeContents` | src/model/model.cpp:221 | merge drops nothing and adds only faces of the merged set |
| `Faces.EraseKeepsFaceSet` | src/model/model.cpp:168-197 | erasing a face keeps a valid face set |
| `Faces.EquivalentSymmetric` | src/model/face.cpp:113-124 | equivalence of two faces does not depend on their order |
| `FaceOrder.SortedSet` | src/model/face.cpp:113-124 | the sorted vertex set is strictly increasing and holds exactly the face's vertices |
| `FaceOrder.InsertSorted` | src/model/face.cpp:113-124 | inserting into a strictly sorted list keeps it strictly sorted, holding exactly the old elements and x |
| `FaceOrder.SortedUnique` | src/model/face.cpp:113-124 | two strictly sorted lists with the same elements are equal |
| `FaceOrder.SameElementsSameSet` | src/model/face.cpp:113-124 | faces with the same vertex set have the same sorted set |
| `FaceOrder.SortedSetOfSorted` | src/model/face.cpp:113-124 | a strictly sorted list is its own sorted set |
| `FaceOrder.ElemSetOfSortedSet` | src/model/face.cpp:113-124 | the sorted set keeps exactly the vertex set |
| `FaceOrder.LexLessIrreflexive` | src/model/face.cpp:113-124 | std::set's lexicographic compare is irreflexive |
| `FaceOrder.LexLessAsymmetric` | src/model/face.cpp:113-124 | the lexicographic compare is asymmetric |
| `FaceOrder.LexLessTransitive` | src/model/face.cpp:113-124 | the lexicographic compare is transitive |
| `FaceOrder.LexLessTotal` | src/model/face.cpp:113-124 | distinct sorted sets are ordered one way or the other |
| `FaceOrder.FaceLessIrreflexive` | src/model/face.cpp:113-124 | operator< is irreflexive |
| `FaceOrder.FaceLessAsymmetric` | src/model.cpp:122-134 | operator< is asymmetric |
| `FaceOrder.SharedThreeIncomparable` | src/model/face.cpp:113-124 | faces sharing at least three vertices are mutually not less |
| `FaceOrder.EquivalentMeans` | src/model/face.cpp:113-124 | two faces are incomparable exactly when they have the same vertex set or share >= 3 vertices |
| `FaceOrder.NotStrictWeakOrder` | src/model/face.cpp:113-124 | {0,1,2} ~ {0,1,2,3,4} ~ {2,3,4} while {0,1,2} < {2,3,4}, so incomparability is not transitive |
| `Mesh.Model.constructor` | include/3dconv/model.hpp:218-226 | a fresh Model is empty with every cache flag true |
| `Mesh.Model.Copy` | src/model/model.cpp:40-47 | the copy has the same lists and flags, and its faces are the original's with the owner set to the copy |
| `Mesh.Model.AddVertex` | src/model/model.cpp:78-82 | appends the vertex and sets the recalc flags; nothing else changes |
| `Mesh.Model.AddTextureVertex` | src/model/model.cpp:85-88 | appends the texture vertex only |
| `Mesh.Model.AddVertexNormal` | src/model/model.cpp:91-94 | appends the vertex normal only |
| `Mesh.Model.AddFace` | src/model/model.cpp:97-112 | an expired or foreign face fails with its message and changes nothing; a face of this Model is inserted, is_validated_ is cleared, the recalc flags are set and is_triangulated_ survives only for a face of <= 3 vertices |
| `Mesh.InsertOwned` | src/model/model.cpp:97-112 | inserting an owned face keeps every face owned, the set valid and the triangulated flag truthful |
| `Mesh.Model.Validate` | src/model/model.cpp:401-421 | a validated Model passes at once; otherwise it passes exactly when every face validates, sets is_validated_ only then, and reports the first failing face's error tagged with its vertices |
| `Mesh.FirstInvalidFace` | src/model/model.cpp:401-421 | the loop stops at the first face validate rejects |
| `Mesh.Model.ConvexifyFaces` | src/model/model.cpp:115-222 | a triangulated Model is left alone; otherwise, after validation, triangles are kept and every other face is replaced by pieces of it |
| `Mesh.ConvexifyAll` | src/model/model.cpp:115-222 | the pieces collected over all faces form a valid face set of the faces' descendants |
| `Mesh.MergedInvariant` | src/model/model.cpp:221 | merging the pieces back keeps the Model's invariant |
| `Mesh.Model.Triangulate` | src/model/model.cpp:239-291 | a triangulated Model is left alone; otherwise faces are convexified, every face of n > 3 vertices becomes its zig-zag triangles, and is_triangulated_ ends true |
| `Mesh.Model.ZigZagFaces` | src/model/model.cpp:264-281 | every face over three vertices is replaced by its zig-zag triangles and is_triangulated_ is set |
| `Mesh.ZigZagInRange` | src/model/model.cpp:264-281 | each zig-zag triangle has three positions below n |
| `Mesh.ZigZagFace` | src/model/model.cpp:264-281 | a zig-zag triangle of a face is a sub-face of three of its vertices |
| `Mesh.EmplaceTriangles` | src/model/model.cpp:264-281 | emplacing the n-2 triangles of a face keeps a set of small faces holding each of them |
| `Mesh.ZigZagAll` | src/model/model.cpp:239-291 | the loop over the faces keeps the small ones and collects the triangles of the others |
| `Mesh.SmallEquivalent` | src/model/face.cpp:113-124 | faces of at most three vertices are equivalent exactly when their vertex sets are equal |
| `Mesh.Model.IsConnected` | src/model/model.cpp:355-365 | validates first; recomputes check_connectivity only while recalc_connectivity_ is set, otherwise returns the cached value |
| `Mesh.Model.RecalcConnectivity` | src/model/model.cpp:355-365 | caches check_connectivity's result and clears the recalc flag |
| `Mesh.ConnectivityOfMeaning` | src/model/model.cpp:434-479 | the cached connectivity is true for no faces exactly when there are no vertices, and otherwise means all faces are connected and every vertex bit is set |
| `Mesh.Model.IsConvex` | src/model/model.cpp:368-378 | validates first; recomputes convexity only while recalc_convexity_ is set |
| `Mesh.Model.RecalcConvexity` | src/model/model.cpp:372-375 | is_convex_ becomes the verdict that no vertex is concave, and recalc_convexity_ is cleared |
| `Mesh.Model.IsWatertight` | src/model/model.cpp:381-398 | validates first; recomputes only while recalc_water_tightness_ is set, and a cached answer leaves the message unwritten |
| `Mesh.PassedNotDoubled` | src/model/face.cpp:209-210 | a face that passes validate has at least three vertices, so it is neither a single vertex nor a repeated pair |
| `Mesh.Model.RecalcWaterTightness` | src/model/model.cpp:484-591 | the cached answer and message are the verdict of the water-tightness check |
| `Convexify.PosBefore` | src/model/model.cpp:168-197 | stepping back one position around the face is the modular predecessor |
| `Convexify.Flags` | src/model/model.cpp:133-166 | one flag per position, with the edge's two ends inside |
| `Convexify.SplitAt` | src/model/model.cpp:168-197 | the inner list and the outer runs are those the split loop builds from the flags |
| `Convexify.SplitShape` | src/model/model.cpp:168-197 | the inner list starts [i, i+1]; every outer run has >= 3 positions, all below n; there are no runs exactly when every position is inside |
| `Convexify.OutersIffOutside` | src/model/model.cpp:168-197 | a run exists exactly when some position is outside |
| `Convexify.ScanEdges` | src/model.cpp:421-444 | the edge loop stops at the first unvisited edge with an outside vertex under the given side rule, and marks the edges it passes |
| `Convexify.Pieces` | src/model/model.cpp:168-197 | the inner list and each outer run become sub-faces, each a piece of the face |
| `Convexify.ProcessFront` | src/model/model.cpp:115-222 | one step of the work queue keeps every queued face a piece of the original, and either visits a new edge or shortens the queue |
| `Convexify.ConvexifyFace` | src/model/model.cpp:115-222 | the work-queue loop ends with a valid face set whose new faces are pieces of the face |
| `ZigZag.CandidateClosedForm` | src/model/model.cpp:264-281 | the m-th candidate triangle has the closed form [n-k, 1+k, 2+k] or [n-1-k, n-k, 2+k] with k = m/2 |
| `ZigZag.StopsAtLast` | src/model/model.cpp:264-281 | the first and third index coincide exactly at candidate n-2, where generation stops |
| `ZigZag.TriangleWellFormed` | src/model/model.cpp:264-281 | each emitted triangle has three distinct positions below n |
| `ZigZag.TrianglesCoverCorners` | src/model/model.cpp:264-281 | every corner of the face is in some triangle |
| `ZigZag.Triangles` | src/model/model.cpp:264-281 | a face of n > 3 corners gives exactly n-2 triangles |
| `ZigZag.TrindAdvance` | src/model/model.cpp:264-281 | adding the alternating step to the index triple gives the next state of the loop |
| `ZigZag.ZigZagIndices` | src/model.cpp:488-541 | the generator loop emits exactly the n-2 triangles |
| `Connectivity.PassFrom` | src/model/model.cpp:434-479 | a pass keeps at most the pending faces it was given |
| `Connectivity.ConnectedExtend` | src/model/model.cpp:434-479 | merging a face that meets a connected union keeps it connected |
| `Connectivity.StuckMeansSplit` | src/model/model.cpp:434-479 | a pass that merges nothing exhibits a split of the faces that share no vertex |
| `Connectivity.PassesInv` | src/model/model.cpp:434-479 | the bounded passes keep the union connected and the pending faces disjoint from it |
| `Connectivity.FinalState` | src/model/model.cpp:434-479 | after at most |faces|-1 passes, nothing is pending exactly when the faces are connected, and the union is then every face's vertices |
| `Connectivity.ConnectedResultMeaning` | src/model/model.cpp:434-479 | the result is connectedness of the faces and all() on the union |
| `Connectivity.ConnectedResultCovers` | src/model.cpp:683-729 | when n is not a multiple of W, the result is connectedness plus every vertex lying in some face |
| `Connectivity.MeetsIffCommonBit` | src/model/model.cpp:434-479 | the intersection bitset has a bit set exactly when the faces share a vertex |
| `Connectivity.FaceBits` | src/model/model.cpp:434-479 | setting a face's vertex bits holds its vertex set, or fails on the first out-of-range vertex |
| `Connectivity.BuildConnections` | src/model/model.cpp:434-479 | one bitset per face, in reverse order, or out_of_range when a face names a vertex >= nverts |
| `Connectivity.MergeAll` | src/model.cpp:683-729 | the pass loop over the bitsets computes the passes of the specification |
| `Connectivity.CheckConnectivity` | src/model/model.cpp:434-479 | no faces gives nverts == 0; an out-of-range vertex fails; otherwise the result is the connectedness verdict |
| `Watertight.FaceEdges` | src/model/model.cpp:489-508 | one cyclic edge per vertex of the face |
| `Watertight.EdgeOccurrences` | src/model/model.cpp:489-508 | the counting map holds each edge of some face with its number of occurrences |
| `Watertight.CountEdges` | src/model/model.cpp:489-508 | counting a face's edges adds them to the counts |
| `Watertight.FirstBadEdge` | src/model.cpp:739-758 | none when every count is 2; otherwise the least edge in ascending order whose count is not 2 |
| `Watertight.ConstantFaceIsBad` | src/model/model.cpp:489-508 | a face of >= 3 copies of one vertex has a bad edge |
| `Watertight.SelectOthers` | src/model/model.cpp:510-541 | the loop finds whether the face holds the vertex and lists its other vertices |
| `Watertight.Renumber` | src/model/model.cpp:510-541 | new vertices get the next dense number in first-seen order, and old numbers are kept |
| `Watertight.LinkNumberingDense` | src/model/model.cpp:510-541 | the link's numbering is dense over exactly the neighbours |
| `Watertight.VertexLink` | src/model/model.cpp:510-541 | the link of a vertex: its incident faces without it, renumbered densely |
| `Watertight.LinkWellDefined` | src/model/model.cpp:510-541 | once step 1 passes, the link's indices are below its vertex count, which is positive when the link has faces |
| `Watertight.LinkConnectedMeaning` | src/model/model.cpp:510-541 | a vertex passes when its link's faces are connected and all() holds on their union |
| `Watertight.CheckWaterTightness` | src/model/model.cpp:484-591 | reports the first bad edge as Boundary or Non-manifold edge, else the first vertex with a disconnected link, else the self-intersection verdict |
| `LinAlg.VecSlice` | include/3dconv/linalg.hpp:115-125 | a slice [a, b) is defined exactly when it is empty or b <= the length, and then holds v[a+i] at i |
| `LinAlg.Homogenize` | include/3dconv/linalg.hpp:131-136 | [v0, v1, v2, e] |
| `LinAlg.MakeZeroMat` | include/3dconv/linalg.hpp:142-154 | every entry is 0 |
| `LinAlg.MakeIdMat` | include/3dconv/linalg.hpp:159-171 | 1 on the diagonal, 0 elsewhere |
| `LinAlg.MatEq` | include/3dconv/linalg.hpp:194-205 | equal exactly when dimensions and entries agree; false when the dimensions differ |
| `LinAlg.MatMul` | include/3dconv/linalg.hpp:210-226 | each entry is the row-by-column sum |
| `LinAlg.IdentityLeft` | include/3dconv/linalg.hpp:210-226 | id * m == m |
| `LinAlg.IdentityRight` | include/3dconv/linalg.hpp:210-226 | m * id == m |
| `LinAlg.Add` | include/3dconv/linalg.hpp:243-256 | entrywise sum |
| `LinAlg.Sub` | include/3dconv/linalg.hpp:273-286 | entrywise difference |
| `LinAlg.MinusUndoesPlus` | include/3dconv/linalg.hpp:243-286 | (a + b) - b == a |
| `LinAlg.PlusZero` | include/3dconv/linalg.hpp:243-256 | adding the zero matrix changes nothing |
| `LinAlg.TruncDivRem` | include/3dconv/linalg.hpp:291-334 | C++'s truncating quotient and remainder recombine, the remainder takes the dividend's sign and is smaller than the divisor |
| `LinAlg.DivScalar` | include/3dconv/linalg.hpp:291-304 | entrywise truncating quotient |
| `LinAlg.RemScalar` | include/3dconv/linalg.hpp:321-334 | entrywise truncating remainder |
| `LinAlg.DivRemRecombine` | include/3dconv/linalg.hpp:291-334 | (m / n) * n + m % n == m entrywise |
| `LinAlg.DotProduct` | include/3dconv/linalg.hpp:383-393 | the sum of the products of the components |
| `LinAlg.DotSymmetric` | include/3dconv/linalg.hpp:383-393 | dot(a, b) == dot(b, a) |
| `LinAlg.CrossProduct` | include/3dconv/linalg.hpp:352-378 | the loop computes the cross product of the first three components, padded with 0 for 4-D |
| `LinAlg.CrossOrthogonal` | include/3dconv/linalg.hpp:352-378 | the cross product is orthogonal to both arguments |
| `LinAlg.CrossAntiCommutes` | include/3dconv/linalg.hpp:352-378 | swapping the arguments negates the cross product |
| `LinAlg.Det2IsCrossZ` | include/3dconv/linalg.hpp:419-424 | the 2x2 determinant is the z component of the rows' cross product |
| `LinAlg.Det3IsTripleProduct` | include/3dconv/linalg.hpp:429-436 | the 3x3 cofactor expansion is the triple product of the rows |
| `LinAlg.Det3RepeatedRow` | include/3dconv/linalg.hpp:429-436 | a repeated row gives determinant 0 |
| `LinAlg.Det3Identity` | include/3dconv/linalg.hpp:429-436 | det(id) == 1 |
| `LinAlg.MakeTranslationMat` | include/3dconv/linalg.hpp:477-486 | the identity with the translation in the last column |
| `LinAlg.TranslationMoves` | include/3dconv/linalg.hpp:477-486 | maps [x, y, z, 1] to [x+t0, y+t1, z+t2, 1] and leaves w = 0 vectors unchanged |
| `LinAlg.MakeScalingMat` | include/3dconv/linalg.hpp:492-501 | diag(f, f, f, 1) |
| `LinAlg.ScalingScales` | include/3dconv/linalg.hpp:492-501 | scales the first three components by f and keeps the last |
| `Endian.Uint2Bytes` | include/3dconv/utils.hpp:20-36 | dst[0..nbytes) becomes the encoding of src and the rest of dst is untouched |
| `Endian.EncodeLittleIsDigits` | include/3dconv/utils.hpp:29-34 | little-endian byte i is (src >> 8i) & 0xff |
| `Endian.BigIsReversedLittle` | include/3dconv/utils.hpp:28-35 | big-endian output is the reverse of little-endian output |
| `Endian.EncodeRoundTrip` | include/3dconv/utils.hpp:25-35 | the little-endian bytes' value is src mod 256^nbytes, and src itself when it fits |
| `Endian.DigitsOfLittleValue` | include/3dconv/utils.hpp:25-35 | encoding a byte string's value gives back the bytes |
| `Text.DecimalRoundTrip` | plugins/parsers/obj.cpp:201-210 | the decimal text of a number reads back as the number |
| `Text.IntToString` | plugins/parsers/obj.cpp:201-210 | the text starts with '-' exactly for negative values |
| `Text.PiecesJoin` | src/cli.cpp:225-252 | the ','-separated pieces join back to the string and contain no separator |
| `Text.GetlineTokensSplit` | plugins/parsers/obj.cpp:164 | getline's tokens contain no separator, rebuild the string, and an empty string has none |
| `Text.WordsSplit` | plugins/parsers/obj.cpp:30-35 | stream extraction yields the non-empty space-free words, which concatenate to the non-space text |
| `Text.BeforeHash` | plugins/parsers/obj.cpp:26-29 | the text before the first '#': a prefix without '#', the whole line when it has none |
| `Text.Extension` | src/cli.cpp:286-301 | a non-empty extension starts with its only '.', holds no '/' and is a proper suffix of the path |
| `Cli.FaceTransformsMeaning` | src/cli.cpp:224-252 | accepted exactly when every command is the letter c or t, the flags saying which occur; otherwise the first bad command's error |
| `Cli.LettersOnly` | src/cli.cpp:224-252 | the result depends only on which letters occur |
| `Cli.ParseFaceTransforms` | src/cli.cpp:224-252 | the getline loop computes that verdict |
| `Cli.ExtensionFormat` | src/cli.cpp:286-301 | the format an extension names is the extension without its dot, when there is one |
| `Cli.IoFormatsExplicit` | src/cli.cpp:258-282 | "a:b" selects a and b whatever the files |
| `Cli.IoFormatsTooMany` | src/cli.cpp:266-282 | three tokens are refused as too many arguments |
| `Cli.IoFormatsFromFiles` | src/cli.cpp:286-301 | with no specification the input needs an extension and the output may lack one only when the output path is empty |
| `Cli.ReadFormatSpec` | src/cli.cpp:258-282 | the specification loop yields the given formats or its error |
| `Cli.ParseIoFormats` | src/cli.cpp:254-302 | parse_ioformats computes the specification verdict followed by the extension fall-back |
| `Cli.ResolveFormats` | src/cli.cpp:286-301 | the two fall-backs to the file extensions |
| `Cli.Numbers` | src/cli.cpp:313-427 | succeeds exactly when each argument is a number, one value per argument |
| `Cli.NumbersFirstBad` | src/cli.cpp:313-427 | the first argument that is not a number is the one reported |
| `Cli.ArgumentsExact` | src/cli.cpp:313-427 | an operation's arguments are accepted exactly when there are arity of them, each a number |
| `Cli.ArgumentsTooMany` | src/cli.cpp:313-427 | more than arity valid arguments give "Too many arguments for …" |
| `Cli.ArgumentsBadNumber` | src/cli.cpp:313-427 | a bad number before the arity is reached is reported |
| `Cli.ArgumentsAllRead` | src/cli.cpp:313-427 | fewer valid arguments than the arity give "Not enough arguments for …" |
| `Cli.ParseArguments` | src/cli.cpp:313-427 | the argument loop computes that verdict |
| `Cli.SkewAccepted` | src/cli.cpp:364-401 | a skew is accepted exactly when its map is two distinct letters among x, y, z followed by one number |
| `Cli.ParseSkew` | src/cli.cpp:364-401 | the skew loop computes that verdict |
| `Cli.MissingTransformation` | src/cli.cpp:313-427 | only an empty part lacks an opcode, reported as "Missing transformation." |
| `Cli.OperationAccepted` | src/cli.cpp:313-427 | accepted only for ro, sc, sk, tr with 4, 1, 2, 3 numeric arguments; any other opcode is "Unknown transformation" |
| `Cli.ScalingPart` | src/cli.cpp:313-427 | "sc:f" is a single scaling by f |
| `Cli.CollectMeaning` | src/cli.cpp:305-430 | collecting the parts' verdicts succeeds with every operation in order, or fails with the first error |
| `Cli.TransformsMeaning` | src/cli.cpp:305-430 | a transform string is accepted exactly when each part is, yielding one operation per part in order |
| `Cli.TransformsAppend` | src/cli.cpp:305-430 | transform strings joined by ',' accumulate their operations in order |
| `Cli.ParsePart` | src/cli.cpp:313-427 | the operation a part denotes: its opcode, then its arguments |
| `Cli.ParseOperation` | src/cli.cpp:313-427 | dispatch on the opcode and the argument loop of the operation it names |
| `Cli.ParseModelTransforms` | src/cli.cpp:305-430 | the part loop computes the transform string's verdict |
| `Cli.FlagsMeaning` | src/cli.cpp:444-472 | accepted exactly when every character is one of a, c, x, s, t, v, w; otherwise the first unknown flag is reported |
| `Cli.Reported` | src/cli.cpp:444-472 | exactly the properties the flags select (all, or their own flag), kept in report order |
| `Cli.ReportMeaning` | src/cli.cpp:444-472 | a property is reported exactly when 'a' or its own letter is among the flags |
| `Cli.Packed` | src/cli.cpp:156-172 | packing keeps only entries that take a value, at most one per entry of the order |
| `Cli.PackedActionsOccurrence` | src/cli.cpp:156-172 | the k-th occurrence of each option gets the k-th value of that option |
| `Cli.PackActions` | src/cli.cpp:156-172 | popping the reversed value lists hands the values out in command-line order |
| `Obj.NumberPrefix` | plugins/parsers/obj.cpp:64-124 | the numbers read before the first word that is not one |
| `Obj.ReadCoordinates` | plugins/parsers/obj.cpp:64-124 | the extraction loop reads exactly that prefix |
| `Obj.VertexOf` | plugins/parsers/obj.cpp:64-85 | accepted exactly when exactly three numbers are read, with w = 1 |
| `Obj.WeightedVertexRefused` | plugins/parsers/obj.cpp:64-85 | four numbers give "Not enough arguments for vertex." |
| `Obj.IntendedVertexOf` | plugins/parsers/obj.cpp:64-85 | three or four numbers accepted, w defaulting to 1 |
| `Obj.TextureVertexOf` | plugins/parsers/obj.cpp:87-105 | accepted exactly when the first word is a number; missing coordinates are 0 and extras ignored, so "Too many" never happens |
| `Obj.FourthTextureCoordinateDropped` | plugins/parsers/obj.cpp:100-101 | four numbers are accepted with the fourth dropped |
| `Obj.IntendedTextureVertexOf` | plugins/parsers/obj.cpp:87-105 | one to three numbers are accepted; more give "Too many arguments for texture vertex." |
| `Obj.ReadTextureVertex` | plugins/parsers/obj.cpp:87-105 | the texture-vertex loop computes that verdict |
| `Obj.VertexNormalOf` | plugins/parsers/obj.cpp:107-124 | accepted exactly when exactly three numbers are read |
| `Obj.ResolveIndex` | plugins/parsers/obj.cpp:201-210 | positive k gives k-1; negative k gives count+k, or "Invalid relative index: k" when -k > count |
| `Obj.Truncate` | plugins/parsers/obj.cpp:131 | the float read becomes a long by truncation toward zero: same sign, magnitude within 1 below |
| `Obj.Str2Long` | plugins/parsers/obj.cpp:127-139 | a word stof cannot read fails; a word with characters stof did not use is "Not a valid integer"; otherwise the truncated value |
| `Obj.PartsOf` | plugins/parsers/obj.cpp:166-199 | an accepted group has at most three parts; its vertex slot, and its normal slot when present, hold an index |
| `Obj.GroupAccepted` | plugins/parsers/obj.cpp:141-210 | an accepted group does not end in '/', has at most three parts, and omits only the texture part |
| `Obj.PartsOfMeaning` | plugins/parsers/obj.cpp:166-199 | each accepted part is a resolved index, and only the texture part may be empty |
| `Obj.FaceAccepted` | plugins/parsers/obj.cpp:213-242 | an accepted face has >= 3 distinct vertices, distinct texture vertices, texture and normal counts 0 or at least the vertex count, and every group of the same shape |
| `Obj.GroupsOfMeaning` | plugins/parsers/obj.cpp:213-224 | the accumulated vertex lists are duplicate-free and the groups share one shape |
| `Obj.FirstFailingLine` | plugins/parsers/obj.cpp:24-47 | the reported line number is that of the first line whose statement fails, 1-based |
| `Obj.StatementKinds` | plugins/parsers/obj.cpp:24-41 | a line with no word before '#' does nothing; an unknown first word is "Invalid statement" with the line; each statement kind comes only from its keyword |
| `Obj.StepGrows` | plugins/parsers/obj.cpp:24-41 | a line fails exactly when its statement does; the vertex lists only grow at the end, and by at most one element per line |
| `Obj.RunBounds` | plugins/parsers/obj.cpp:24-47 | a failure names a line number between 1 and the number of lines; a parsed file has at most one list element per line |
| `Obj.CommentIgnored` | plugins/parsers/obj.cpp:26-29 | a comment after '#' does not change the statement |
| `Obj.RunCounts` | plugins/parsers/obj.cpp:24-44 | a parsed file has one vertex per v line, one texture vertex per vt line, one normal per vn line and at most one face per f line |
| `Obj.NothingButComments` | plugins/parsers/obj.cpp:24-44 | lines without a statement leave the model empty |
| `Obj.ParseGroup` | plugins/parsers/obj.cpp:164-210 | the part loop adds the group's indices to the face or reports the group's error |
| `Obj.ReadGroups` | plugins/parsers/obj.cpp:141-224 | the group loop builds the face's index lists or reports the first error |
| `Obj.ParseFace` | plugins/parsers/obj.cpp:141-245 | fails with the face's error and changes nothing, or adds the face to the Model |
| `Obj.ParseCoordinates` | plugins/parsers/obj.cpp:64-124 | v, vt and vn lines give their coordinates or their error |
| `Obj.ParseLine` | plugins/parsers/obj.cpp:24-44 | a line passes exactly when its statement does, and then the contents change as that statement says |
| `Obj.ParseObj` | plugins/parsers/obj.cpp:14-51 | an unopened file gives an empty Model; otherwise the Model holds the file's contents, or the first error is reported with its line number and the file name |
| `StlBin.FaceNormal` | src/model/face.cpp:70-77 | a cached normal is returned; a computed one requires a triangle with vertices in range |
| `StlBin.Header` | plugins/writers/stl_bin.cpp:25-33 | the header is 84 bytes long |
| `StlBin.HeaderLayout` | plugins/writers/stl_bin.cpp:25-33 | the header is 80 zero bytes, then the face count modulo 2^32 as four little-endian bytes |
| `StlBin.RecordLayout` | plugins/writers/stl_bin.cpp:36-54 | a record is the normal's 12 bytes, 12 bytes per vertex with w dropped, then 2 zero bytes |
| `StlBin.CornerAt` | plugins/writers/stl_bin.cpp:46-52 | the j-th vertex occupies bytes 12j to 12j+12 |
| `StlBin.CornersRead` | plugins/writers/stl_bin.cpp:46-52 | the vertex loop completes exactly when every index is in range, and then writes every vertex |
| `StlBin.CornersReadStops` | include/3dconv/model.hpp:28-40 | the checked read stops at the first index out of range with OutOfRange, after writing the vertices before it |
| `StlBin.FaceRecordCases` | plugins/writers/stl_bin.cpp:36-54 | a failing normal() writes nothing; a record is complete exactly when normal() succeeds and every vertex is in range; only a cached normal meets an index out of range |
| `StlBin.FaceRecordOutOfRange` | plugins/writers/stl_bin.cpp:36-58 | a cached normal with a bad vertex leaves the normal and the vertices before it in the file, and throws OutOfRange for that index |
| `StlBin.RecordsError` | plugins/writers/stl_bin.cpp:36-58 | writing stops exactly at the first face that throws, from its normal() or from a vertex read, with that face's error |
| `StlBin.FirstSomeIsFirst` | plugins/writers/stl_bin.cpp:36-58 | the first error of a list is absent exactly when every entry is, and otherwise is the entry at the first position holding one |
| `StlBin.RecordsOfTriangles` | plugins/writers/stl_bin.cpp:36-54 | for triangles each record is 50 bytes, record k at bytes 50k to 50k+50 |
| `StlBin.StlLayout` | plugins/writers/stl_bin.cpp:25-54 | the file is 84 + 50F bytes: 80 zeros, F mod 2^32 in little-endian, then each face's record |
| `StlBin.StlBinWriter.constructor` | plugins/writers/stl_bin.cpp:10 | the writer starts with an empty file |
| `StlBin.StlBinWriter.Write` | plugins/writers/stl_bin.cpp:12-60 | writes into a fresh copy of the Model, leaving the caller's untouched; an unopened file is not written; otherwise header then records, with any error rethrown as WriteError with the file name and what was written before it kept |
| `StlBin.StlBinWriter.WriteHeader` | plugins/writers/stl_bin.cpp:25-33 | appends the header |
| `StlBin.StlBinWriter.WriteRecord` | plugins/writers/stl_bin.cpp:36-54 | appends one face's record: nothing when its normal fails, the cut record and the error when a vertex index is out of range |
| `StlBin.StlBinWriter.WriteCorners` | plugins/writers/stl_bin.cpp:46-52 | appends the vertices up to the first index out of range and reports it, or all of them |
| `StlBin.SmallFaceNormal` | src/model/face.cpp:70-77 | normal() on a face of at most three vertices is FaceNormal |
| `StlBin.StlBinWriter.WriteFaces` | plugins/writers/stl_bin.cpp:25-58 | appends the header and the records, failing with the first face's error and the file name |
| `StlBin.TriangulatedCopy` | plugins/writers/stl_bin.cpp:17-23 | the copy is triangulated, and its faces come from the original through convexification and the zig-zag split |

## Left out

- Floating-point values are not computed. This covers vertex coordinates, `compute_normal`'s
  distances and normalisation, `transform`, `surface_area`, `volume`,
  `get_concave_vertices` with its `EPSILON`, rotation and skew matrices, and
  `euclidean_norm`. Sign tests and vector operations are function-typed parameters; the
  concave-vertex verdict and the self-intersection verdict (step 3 of
  `check_water_tightness`) are parameters of the methods that use them.
- `transpose` is not modelled. Its inner loop condition is broken and nothing calls it.
- The generic `make_rotation_mat` is not modelled. It only returns the identity, and the
  3-D rotation is float-only.
- The matrix product that `parse_model_transforms` builds from the operations is not
  modelled. It is float-only; the model returns the validated operation list instead.
- Reference counting is not modelled. The Face-to-Model weak pointer is an `Option` whose
  `None` means expired.
- `std::set<Face>` is modelled as a sorted sequence with "insert unless an equivalent face
  exists". The red-black tree's behaviour under the non-strict-weak `operator<` is not
  modelled, nor the iteration order of faces that compare equal.
- File streams, the IO registry, `InfoPrinter`, console output and the CLI11 calls in
  `CLIContext` are left out. Inputs are given as strings and outputs as byte sequences.
- The printing side of `print_properties` is left out; only the flag parsing and the
  report choice are modelled.
- `src/main.cpp` is plumbing and is not part of this model.
- Number parsing is a parameter. The model does not cover `std::stof`'s `out_of_range`,
  the range of `long` in `str2long`, or the exact text of `invalid_argument::what()`,
  which the library defines and the model names `NotANumber`.
- Stream extraction into a float that consumes only part of a word is not modelled. A word
  counts as a number or not as a whole.
- `Obj.ParseFace`: after an error, the partly built Face is discarded; the model does not
  keep its intermediate state.
- `Mesh.Model.IsWatertight` requires, only of an already validated Model, that no face is a
  single vertex or a vertex repeated twice. The Model's invariant keeps only two vertices
  per face once validated, and on such a face the vertex-link step of check_water_tightness
  reads a Bitset of no words, which the source leaves undefined. An unvalidated Model is
  taken as it is: validate() refuses such a face first.
- `Watertight.CheckWaterTightness` requires that no face is a single vertex or a vertex
  repeated twice, for the same reason. Its caller in the Model runs it only on faces that
  validate() passed.
- `Connectivity.CheckConnectivity` requires `Defined`: with faces present, no vertices and
  every face empty, `Bitset::all()` runs on zero words, which the source leaves undefined.
- `Bitsets.Bitset.All` requires a bitset of at least one bit. With no bits, `wordcnt_ - 1`
  wraps to SIZE_MAX and all() reads past an empty word array, which the source leaves undefined.
- `Endian.Uint2Bytes` requires `src < 256^width` and `nbytes <= width`. Those are the
  unsigned type's range and the buffer size the template assumes.
- A failing method does not model writes it made to output parameters before it threw.
- `Mesh.Model.Triangulate` does not state how many triangles replace a face. It states
  instead that every zig-zag triangle of each face is present, up to `std::set`
  equivalence. `ZigZag.Triangles` proves the n-2 count of the generator itself.

## Findings

| source | as written | input that shows it | evidently intended | confidence | as-written member | corrected member |
|---|---|---|---|---|---|---|
| src/bitset.cpp:10 | the last-word mask is `(1 << n % W) - 1`, which is 0 when n is a multiple of W, so all() compares the full last word with 0 | n = W = 8, every bit set: all() is false | the last mask is the full mask when n % W == 0, so all() means every bit is set | not executed | `Bitsets.AllFalseWhenFullAndMultiple` | `Bitsets.IntendedAllMeansEveryBit` |
| plugins/parsers/obj.cpp:64-85 | a vertex line with four coordinates reports "Not enough arguments for vertex." | `v 1 2 3 1` | x y z with an optional w, as the OBJ format allows | not executed | `Obj.WeightedVertexRefused` | `Obj.IntendedVertexOf` |
| plugins/parsers/obj.cpp:87-105 | the "Too many arguments for texture vertex." branch is unreachable, so a fourth coordinate is silently dropped | `vt 0.1 0.2 0.3 0.4` | more than three coordinates are refused | not executed | `Obj.FourthTextureCoordinateDropped` | `Obj.IntendedTextureVertexOf` |

The kernel's operations (`Bitsets.Bitset.All`, `Obj.ParseLine`, `Obj.ParseObj`) keep each
code path as written. The corrected definitions stand beside them, with the intended
property proved about each.
