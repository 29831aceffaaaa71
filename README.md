# ProSim chain trees, in Dafny

This project models the protein-backbone core of ProSim. The model has
these parts:

- **Chain tree.** A balanced binary tree whose leaves are the bonds of a
  protein backbone. Every node caches three things for its piece of the
  chain: the transformation matrix (the product of its children's), a
  bounding volume, and an energy.
  - Changing one torsion angle rotates one leaf's matrix. Then only the
    leaf's ancestors are refreshed.
  - The backbone points are read back by multiplying the leaf matrices
    from left to right.
- **Adjustable chain tree.** The chain tree also locks the bonds of
  peptide planes, helices and sheets. Tree rotations regroup each run of
  locked bonds into a subtree of its own.
- **Supporting types.**
  - Transformation matrices, vectors and the empty bounding volume.
  - Tuples with Java's `equals`, `compareTo` and `hashCode`.
  - Amino-acid indices, the backbone segment analyser and the profiler.
- **Other readers of a backbone.** The naive protein representation (a
  plain list of atom positions) and the PDB file parser.

The tree is an arena. `ChainShape.Node` records live in a `seq`, and a
link is a slot index. Leaf `i` is slot `i`, and internal nodes follow
the leaves. The tree's shape is stated as local well-formedness
predicates (`ChainShape.Tree`), and the caches as consistency predicates
(`HeightsOk`, `TransformsOk`, `VolumesOk`). The objects the source updates
in place are Dafny classes (`ChainTree`, `AdjustableChainTree`,
`TransformationMatrix`, `Profiler`, `NaiveProteinRepresentation`,
`PdbParser`), and their loops are Dafny loops with invariants. The
recursive and pure parts are functions and lemmas.

Other modelling choices:

- Real numbers stand in for Java doubles. The sine and cosine values are
  a `Trig` record passed in, and the model relies only on sin 0 = 0 and
  cos 0 = 1.
- Bounding volumes other than `Empty` are free terms: the capsule
  geometry is not part of this model.
- An `AdjustableChainTree` holds its `ChainTree` as a field (`tree`),
  because Dafny classes cannot extend one another.

## Model

| member | source | states |
|---|---|---|
| Vectors.VectorTo | math/Vector3D.java:115-117 | the vector from a to b, added to a, gives b |
| Vectors.AddSubtractInverse | math/Vector3D.java:43-55 | subtracting what was added gives the vector back, and the other way round |
| Vectors.ZeroIsAdditiveIdentity | math/Vector3D.java:13-45 | the default (zero) vector is neutral for add, and scaling by 1 changes nothing |
| Vectors.AddCommutesAndAssociates | math/Vector3D.java:43-45 | add is commutative and associative |
| Vectors.DotSymmetric | math/Vector3D.java:93-95 | dot(a, b) == dot(b, a) |
| Vectors.CrossAntiCommutative | math/Vector3D.java:103-107 | cross(a, b) is the negation of cross(b, a) |
| Vectors.CrossOrthogonal | math/Vector3D.java:103-107 | the cross product is orthogonal to both factors |
| Vectors.CrossExample | test/VisualVectorDebugger.java:14-17 | (2,0,0) x (0,1,0) is (0,0,2) |
| Volumes.EmptyCombine | boundingVolume/Empty.java:13-15 | Empty.combine hands back its argument |
| Volumes.Transform | boundingVolume/Empty.java:23-25 | the empty volume stays empty, and every other volume is moved by the matrix |
| Volumes.EmptyIsOverlapping | boundingVolume/Empty.java:18-20 | Empty never overlaps anything |
| Volumes.EmptyVolume | boundingVolume/Empty.java:28-30 | Empty's volume is 0 |
| Volumes.EmptyStaysEmpty | boundingVolume/Empty.java:23-25 | transforming Empty, any number of times, gives Empty, and only Empty transforms to Empty |
| Matrices.IdentityNeutral | math/matrix/TransformationMatrix.java:16-33 | the unit matrix is a left and right identity of the product |
| Matrices.TranslationsCompose | math/matrix/TransformationMatrix.java:76-90 | the product of two translations is the translation by the sum |
| Matrices.ComposeAssociative | math/matrix/TransformationMatrix.java:76-90 | the homogeneous product is associative |
| Matrices.ApplyCompose | math/matrix/TransformationMatrix.java:180-188 | transforming by l*r applies r first, then l |
| Matrices.TranslationOfCompose | math/matrix/TransformationMatrix.java:76-90 | the product's translation column is l applied to r's translation |
| Matrices.TranslationIsImageOfOrigin | math/matrix/TransformationMatrix.java:180-188 | the translation column is the image of the origin |
| Matrices.RotateKeepsTranslation | math/matrix/TransformationMatrix.java:148-173 | rotate never changes the translation column |
| Matrices.RotateIdempotent | math/matrix/TransformationMatrix.java:148-173 | rotating twice by the same angle is rotating once |
| Matrices.RotateOverrides | math/matrix/TransformationMatrix.java:148-173 | a later rotate overrides an earlier one completely |
| Matrices.RotateZeroOfTranslation | math/matrix/TransformationMatrix.java:148-173 | rotate(0) leaves a pure translation unchanged |
| Matrices.TransformationMatrix.constructor | math/matrix/TransformationMatrix.java:16-21 | a fresh unit matrix |
| Matrices.TransformationMatrix.Translate | math/matrix/TransformationMatrix.java:29-33 | a fresh translation by (x, y, z) with the identity block |
| Matrices.TransformationMatrix.FromEntries | math/matrix/TransformationMatrix.java:51-56 | a fresh matrix with the twelve given entries |
| Matrices.TransformationMatrix.Copy | math/matrix/TransformationMatrix.java:64-68 | a fresh object whose entries equal m's |
| Matrices.TransformationMatrix.Product | math/matrix/TransformationMatrix.java:76-90 | a fresh matrix holding l*r; the factors are untouched |
| Matrices.TransformationMatrix.MultR | math/matrix/TransformationMatrix.java:97-116 | this becomes old(this)*m, also when m is this; only this changes |
| Matrices.TransformationMatrix.MultL | math/matrix/TransformationMatrix.java:122-141 | this becomes m*old(this), also when m is this; only this changes |
| Matrices.TransformationMatrix.Rotate | math/matrix/TransformationMatrix.java:148-173 | the block becomes the rotation by angle about the translation axis; the translation is kept |
| Matrices.TransformationMatrix.Transform | math/matrix/TransformationMatrix.java:180-188 | the image of v (block times v plus translation); nothing changes |
| ChainNodes.NewLeaf | dataStructure/CTLeaf.java:18-24 | a leaf that covers its own bond, is a translation by the relative position, holds a capsule from the origin to that position, and has angle 0 |
| ChainNodes.Position | dataStructure/CTLeaf.java:33-36 | the leaf's translation column |
| ChainNodes.RotatedLeaf | dataStructure/CTLeaf.java:43-46 | the angle drops by a, the block is rewritten, and everything else is kept |
| ChainNodes.RotateKeepsPosition | dataStructure/CTLeaf.java:43-46 | rotate never moves the leaf's position |
| ChainNodes.NewLeafHasForm | dataStructure/CTLeaf.java:18-24 | a new leaf's matrix is its own rotation by its angle |
| ChainNodes.RotateKeepsForm | dataStructure/CTLeaf.java:43-46 | rotate keeps that form |
| ChainNodes.RotateInverse | dataStructure/CTLeaf.java:43-46 | rotate(a), then rotate(-a), restores the leaf |
| ChainNodes.Updated | dataStructure/CTNode.java:61-70 | the matrix is the children's product, the volume the fit of the left volume and the right volume moved by the new matrix, and the energy the sum; links, span, height and lock are kept |
| ChainNodes.NewInternal | dataStructure/CTNode.java:26-40 | height one above the taller child, span from the left low to the right high, unlocked, no parent, then update(): matrix the children's product, volume the fit of the left volume and the right volume moved by that product, energy the sum |
| ChainNodes.SetLeft | dataStructure/CTNode.java:102-108 | only the left link, low and (when the child is as tall) the height change |
| ChainNodes.SetRight | dataStructure/CTNode.java:113-119 | the mirror image of setLeft |
| ChainNodes.SetBothSpan | dataStructure/CTNode.java:102-119 | setLeft then setRight gives the children's combined span, and a height no lower than either child's plus one |
| ChainShape.ChildSmaller | dataStructure/CTNode.java:127-129 | a child covers strictly fewer bonds than its parent, and no node covers more than n |
| ChainShape.ParentLarger | dataStructure/CTNode.java:127-129 | a parent covers strictly more bonds than its child |
| ChainShape.Ups | dataStructure/ChainTree.java:165-170 | the parent chain starts at x, each step is a parent link, and it ends at a node without a parent |
| ChainShape.UpsNested | dataStructure/ChainTree.java:165-170 | spans grow along the parent chain |
| ChainShape.UpsDistinct | dataStructure/ChainTree.java:165-170 | the parent chain repeats no node, so the walk terminates |
| ChainShape.UpsClosed | dataStructure/ChainTree.java:165-170 | the parent chain is closed under taking parents |
| ChainShape.CoverIsAncestor | dataStructure/CTNode.java:127-129 | every node with bond k in its sub-chain is an ancestor of leaf k |
| ChainShape.AncestorCovers | dataStructure/CTNode.java:127-129 | every ancestor of leaf k has bond k in its sub-chain |
| ChainShape.Laminar | dataStructure/CTNode.java:127-129 | two nodes covering a common bond are nested |
| ChainShape.ChainChild | dataStructure/ChainTree.java:165-170 | on leaf k's parent chain, each node is the child of the next one that covers bond k |
| ChainShape.Range | dataStructure/ChainTree.java:54-61 | the list lo, lo+1, ..., hi-1 |
| ChainShape.InOrderIsSpan | dataStructure/ChainTree.java:73-94 | the leaves under a node, left to right, are exactly the bonds of its span |
| ChainShape.TreeInOrder | dataStructure/ChainTree.java:73-94 | the root's leaves, in order, are bonds 0..n-1 |
| ChainShape.Desc | dataStructure/AdjustableChainTree.java:173-179 | the subtree's slots: the node and, recursively, its children's subtrees |
| ChainShape.DescSpan | dataStructure/AdjustableChainTree.java:173-179 | a subtree's nodes lie inside its root's span, and its leaves are exactly the bonds of that span |
| ChainShape.LeafSlots | dataStructure/CTNode.java:54-56 | isLeaf holds exactly for the leaf slots 0..n-1 |
| ChainShape.SubChainIsSubtree | dataStructure/CTNode.java:127-129 | inSubChain(k) holds exactly when leaf k is in the node's subtree |
| ChainShape.LeafProductSplit | dataStructure/CTNode.java:61-63 | the product of a range of leaves splits at any midpoint |
| ChainShape.SpanTransform | dataStructure/CTNode.java:61-63 | with consistent caches, a node's matrix is the product of the leaf matrices over its span |
| ChainShape.SameLeavesSameTransforms | dataStructure/CTNode.java:61-63 | only the leaves decide the cached matrices |
| ChainShape.LeafProductLeaves | dataStructure/CTNode.java:61-63 | the leaf product depends only on the leaves' matrices |
| ChainShape.RootsSorted | dataStructure/ChainTree.java:73-91 | the roots of a level lie strictly left to right |
| ChainShape.LeavesForest | dataStructure/ChainTree.java:73-74 | the leaves alone form the first level |
| ChainShape.Merged | dataStructure/CTNode.java:26-40 | a new last slot built from the two children, which now point at it |
| ChainShape.MergeForest | dataStructure/ChainTree.java:81-83 | pairing two adjacent roots keeps a forest with one root fewer, keeps the caches consistent, and changes only the children's parent links |
| ChainShape.MergeAll | dataStructure/ChainTree.java:81-83 | the merge keeps every slot well formed and every cache consistent |
| ChainShape.MergeNodes | dataStructure/CTNode.java:26-40 | the merged arena is well formed |
| ChainShape.MergeCaches | dataStructure/CTNode.java:26-40 | the new node's height, matrix and volume are consistent |
| ChainShape.MergeOrder | dataStructure/ChainTree.java:81-83 | the new root takes the two old roots' place in the left-to-right order |
| ChainShape.MergeRoots | dataStructure/ChainTree.java:81-83 | exactly the new list of roots is parentless |
| ChainShape.ForestTree | dataStructure/ChainTree.java:91-94 | a forest with one root is a whole tree |
| ChainShape.ShapeNodes | dataStructure/CTNode.java:61-70 | well-formedness and heights depend only on the shape |
| ChainShape.ShapeTree | dataStructure/CTNode.java:61-70 | a whole tree stays one under any change that keeps its shape |
| ChainShape.UpdatedAt | dataStructure/CTNode.java:61-70 | update() at x changes only slot x, as Updated says |
| ChainShape.UpdatedAtVolume | dataStructure/CTNode.java:61-70 | after update() at x, x's matrix and volume are consistent with its children, and the shape is kept |
| ChainShape.ChangedOne | dataStructure/ChainTree.java:167-170 | refreshing one node can break consistency only at its parent |
| ChainShape.UpsAboveLeaves | dataStructure/ChainTree.java:165-168 | only the start of a parent chain can be a leaf |
| ChainShape.WalkStart | dataStructure/ChainTree.java:162-165 | rotating a leaf of a consistent tree starts the upward walk |
| ChainShape.WalkStep | dataStructure/ChainTree.java:167-170 | one update() at the parent moves the walk one step up |
| ChainShape.WalkDone | dataStructure/ChainTree.java:167-170 | at the root every cache is consistent again, and no other leaf has changed |
| ChainTrees.Relative | dataStructure/ChainTree.java:51-60 | point k is the previous point (the offset for k = 0) plus the relative position |
| ChainTrees.PointsOf | dataStructure/ChainTree.java:114-125 | n points, point k being the translation after leaf k |
| ChainTrees.PrefixIsProduct | dataStructure/ChainTree.java:114-125 | the running product is the position's translation times the product of the leaves |
| ChainTrees.PrefixOfTranslations | dataStructure/ChainTree.java:49-61 | leaves made from relative positions give back the original points |
| ChainTrees.PointsUpTo | dataStructure/ChainTree.java:114-125 | leaves that agree before i, with the same position at i, give the same points 0..i |
| ChainTrees.PrefixesAgree | dataStructure/ChainTree.java:114-125 | leaves with equal matrices give equal running products |
| ChainTrees.PairLevel | dataStructure/ChainTree.java:79-90 | one pass pairs adjacent roots into a level of half the size (rounded up) and keeps the leaves |
| ChainTrees.PairStep | dataStructure/ChainTree.java:82-83 | pairing roots i and i+1 gives the next root of the next level |
| ChainTrees.PairRoots | dataStructure/ChainTree.java:82-83 | the loop body: the level stays a valid forest with one more root and the leaves are kept |
| ChainTrees.CarryOdd | dataStructure/ChainTree.java:85-86 | an odd last root is carried up, and the next level is a valid forest of the stated size |
| ChainTrees.MergedLeafPart | dataStructure/CTNode.java:26-40 | a merge keeps the leaves |
| ChainTrees.NewLeaves | dataStructure/ChainTree.java:49-61 | leaf k is the new leaf for point k's position relative to the previous point |
| ChainTrees.Build | dataStructure/ChainTree.java:73-94 | the do-while loop ends with one root of a whole, consistent tree whose leaves are the given ones |
| ChainTrees.LeafPartAt | dataStructure/ChainTree.java:73-94 | leaf x keeps everything but its parent link |
| ChainTrees.CarryShift | dataStructure/ChainTree.java:85-86 | an odd last root is carried to the next level unchanged |
| ChainTrees.EndThroughRoot | dataStructure/ChainTree.java:114-125 | the last backbone point is the position moved by the root's matrix |
| ChainTrees.RotateBack | dataStructure/ChainTree.java:160-162 | rotating a bond and rotating it back restores the leaves |
| ChainTrees.ChainTree.Points | dataStructure/ChainTree.java:114-125 | the n backbone points that the tree represents |
| ChainTrees.ChainTree.constructor | dataStructure/ChainTree.java:43-95 | a valid tree with consistent volumes; leaf k holds point k relative to point k-1; the leaves in order are 0..n-1; the points read back are the given ones |
| ChainTrees.ChainTree.GetBackbonePoints | dataStructure/ChainTree.java:114-125 | the loop returns exactly the tree's points |
| ChainTrees.ChainTree.IsPeptide | dataStructure/ChainTree.java:132-134 | never a peptide bond |
| ChainTrees.ChainTree.IsInAlphaHelix | dataStructure/ChainTree.java:141-143 | never in a helix |
| ChainTrees.ChainTree.IsInBetaSheet | dataStructure/ChainTree.java:150-152 | never in a sheet |
| ChainTrees.ChainTree.Update | dataStructure/CTNode.java:61-70 | the arena becomes UpdatedAt at x |
| ChainTrees.ChainTree.WalkUp | dataStructure/ChainTree.java:167-170 | the update() walk from leaf i ends at the root with every cache consistent again and leaf i untouched |
| ChainTrees.RotationWalked | dataStructure/ChainTree.java:160-171 | after the walk the tree is valid with the same shape, no other leaf changed, and points 0..i stay |
| ChainTrees.ChainTree.ChangeRotationAngle | dataStructure/ChainTree.java:160-171 | fails, changing nothing, exactly when i is outside the backbone; otherwise leaf i is rotated, only its ancestors change, the tree stays valid with the same shape and locks, and points 0..i stay |
| TreeRotations.LinksNodes | dataStructure/CTNode.java:61-70 | an arena with the same links stays well formed |
| TreeRotations.LinksTree | dataStructure/CTNode.java:61-70 | a tree with the same links stays a whole tree |
| TreeRotations.LeftSlots | dataStructure/AdjustableChainTree.java:266-271 | the four slots that rotateLeft works with exist and are linked as the rotation expects |
| TreeRotations.RotatedLeft | dataStructure/AdjustableChainTree.java:266-299 | a takes b's place with b as its left child; b covers l and d; only slots a, b, d and b's old parent change |
| TreeRotations.RotatedLeftAt | dataStructure/AdjustableChainTree.java:271-299 | the rewiring, slot by slot |
| TreeRotations.RotatedLeftNodes | dataStructure/AdjustableChainTree.java:266-299 | rotateLeft keeps a well-formed arena |
| TreeRotations.RotatedLeftNodeOk | dataStructure/AdjustableChainTree.java:266-299 | each slot stays locally well formed |
| TreeRotations.RotatedLeftTree | dataStructure/AdjustableChainTree.java:266-299 | rotateLeft keeps a whole tree, and the root moves to a when b was the root |
| TreeRotations.RotatedLeftTransforms | dataStructure/AdjustableChainTree.java:266-299 | every matrix stays consistent |
| TreeRotations.RotatedLeftHeights | dataStructure/AdjustableChainTree.java:298-299 | b's and a's heights are consistent, and only a's new parent can be stale |
| TreeRotations.RightSlots | dataStructure/AdjustableChainTree.java:316-321 | the four slots that rotateRight works with exist and are linked as expected |
| TreeRotations.RotatedRight | dataStructure/AdjustableChainTree.java:316-349 | b takes a's place with a as its right child; a covers d and c; only a, b, d and a's old parent change |
| TreeRotations.RightRotationHeights | dataStructure/AdjustableChainTree.java:348-349 | each rotated node is one above its taller new child |
| TreeRotations.RightRotationHeightsAsWrittenWrong | dataStructure/AdjustableChainTree.java:348-349 | on a three-bond tree the heights as written differ from the correct ones |
| TreeRotations.RotatedRightAt | dataStructure/AdjustableChainTree.java:321-349 | the rewiring, slot by slot |
| TreeRotations.RotatedRightNodes | dataStructure/AdjustableChainTree.java:316-349 | rotateRight keeps a well-formed arena |
| TreeRotations.RotatedRightNodeOk | dataStructure/AdjustableChainTree.java:316-349 | each slot stays locally well formed |
| TreeRotations.RotatedRightTree | dataStructure/AdjustableChainTree.java:316-349 | rotateRight keeps a whole tree, and the root moves to b when a was the root |
| TreeRotations.RotatedRightTransforms | dataStructure/AdjustableChainTree.java:316-349 | every matrix stays consistent |
| TreeRotations.RotatedRightHeights | dataStructure/AdjustableChainTree.java:348-349 | with the corrected heights, a and b are consistent, and only b's new parent can be stale |
| TreeRotations.Raised | dataStructure/AdjustableChainTree.java:304 | the recomputed height is one above the taller child |
| TreeRotations.ClimbStart | dataStructure/AdjustableChainTree.java:302 | right after the rewiring, the ancestor loop stands at the new subtree root |
| TreeRotations.ClimbStep | dataStructure/AdjustableChainTree.java:302-307 | one pass of the ancestor loop refreshes the next ancestor |
| TreeRotations.ClimbStepFixed | dataStructure/AdjustableChainTree.java:302-307 | a pass changes only that ancestor |
| TreeRotations.ClimbStepLinks | dataStructure/AdjustableChainTree.java:302-307 | a pass keeps the links and every matrix |
| TreeRotations.MatricesKept | dataStructure/CTNode.java:61-63 | same links and matrices keep the matrices consistent |
| TreeRotations.ClimbStepHeights | dataStructure/AdjustableChainTree.java:304 | a pass makes the ancestor's height consistent |
| TreeRotations.ClimbStepVolumes | dataStructure/AdjustableChainTree.java:305 | a pass makes the ancestor's volume consistent and keeps those below it |
| TreeRotations.VolumesBelow | dataStructure/CTNode.java:61-70 | volumes below the changed node survive |
| TreeRotations.VolumeAway | dataStructure/CTNode.java:61-70 | changing a larger node leaves another node's volume check as it was |
| TreeRotations.ClimbDone | dataStructure/AdjustableChainTree.java:302-307 | at the root every height is consistent and every proper ancestor has been refreshed |
| TreeRotations.SameLeavesTrans | dataStructure/AdjustableChainTree.java:217-258 | keeping the leaves is transitive |
| TreeRotations.RotatedLeftLeaves | dataStructure/AdjustableChainTree.java:266-299 | rotateLeft touches no leaf data and no lock |
| TreeRotations.RotatedRightLeaves | dataStructure/AdjustableChainTree.java:316-349 | rotateRight touches no leaf data and no lock |
| TreeRotations.RewiredLeaves | dataStructure/AdjustableChainTree.java:302-307 | the ancestor loop keeps the leaves and the locks |
| AdjustableChainTrees.LeavesKeep | dataStructure/ChainTree.java:114-125 | trees with the same leaves give the same backbone points |
| AdjustableChainTrees.Grandparent | dataStructure/AdjustableChainTree.java:230-235 | a grandparent can be rotated towards the side its child hangs on |
| AdjustableChainTrees.UpLeftRotated | dataStructure/AdjustableChainTree.java:231-232 | rotateLeft at the grandparent lifts the parent, and x stays its right child |
| AdjustableChainTrees.UpRightRotated | dataStructure/AdjustableChainTree.java:233-234 | rotateRight at the grandparent makes x the grandparent's left child |
| AdjustableChainTrees.DownRightRotated | dataStructure/AdjustableChainTree.java:249-250 | rotateRight at the grandparent lifts the parent, x stays its left child, and the covering node keeps its span |
| AdjustableChainTrees.DownLeftRotated | dataStructure/AdjustableChainTree.java:251-252 | rotateLeft at the grandparent makes x the grandparent's right child |
| AdjustableChainTrees.GoUpWithin | dataStructure/AdjustableChainTree.java:244-245 | going up from a right child stays inside the covering node |
| AdjustableChainTrees.LocksKeep | dataStructure/AdjustableChainTree.java:173-179 | locking changes neither the tree, nor its caches, nor its points |
| AdjustableChainTrees.SortedBondsLocked | dataStructure/AdjustableChainTree.java:93-102 | after the lock loop, the sorted list holds bonds inside the backbone, each of them locked |
| AdjustableChainTrees.LockedThenGrouped | dataStructure/AdjustableChainTree.java:93-118 | locking, then grouping, leaves exactly the listed bonds newly locked |
| AdjustableChainTrees.LeavesPoints | dataStructure/ChainTree.java:114-125 | leaves that differ only in links and locks give the same points |
| AdjustableChainTrees.DescShape | dataStructure/AdjustableChainTree.java:173-179 | the subtree depends only on the links |
| AdjustableChainTrees.LeftAway | dataStructure/AdjustableChainTree.java:266-300 | a left rotation whose raised node covers a bond of i..j keeps the children, span and lock of every node covering none of them |
| AdjustableChainTrees.RightAway | dataStructure/AdjustableChainTree.java:316-349 | the same for a right rotation |
| AdjustableChainTrees.DescKept | dataStructure/AdjustableChainTree.java:173-179 | a subtree whose nodes keep their children is the same set of nodes |
| AdjustableChainTrees.GroupedKept | dataStructure/AdjustableChainTree.java:89-154 | a locked subtree over lo..hi survives grouping runs that share no bond with lo..hi |
| AdjustableChainTrees.GroupedKeptOne | dataStructure/AdjustableChainTree.java:104-118 | a locked subtree survives a later group of a run it shares no bond with |
| AdjustableChainTrees.HelicesThenSheets | dataStructure/AdjustableChainTree.java:42-48 | after the helices and then the sheets are grouped, every sheet run, and every helix run apart from the sheet runs, is a locked subtree |
| AdjustableChainTrees.ScanAdvance | dataStructure/AdjustableChainTree.java:104-118 | one step of the scan, as the loop body takes it |
| AdjustableChainTrees.ScanInside | dataStructure/AdjustableChainTree.java:104-118 | every run handed over is a non-empty range of consecutive listed indices |
| AdjustableChainTrees.RunsInside | dataStructure/AdjustableChainTree.java:104-118 | every run grouped is a non-empty range of listed indices |
| AdjustableChainTrees.ScanCovers | dataStructure/AdjustableChainTree.java:104-118 | every index but the greatest lies in a run handed over |
| AdjustableChainTrees.RunsCover | dataStructure/AdjustableChainTree.java:104-118 | only a final run of a single index escapes grouping |
| AdjustableChainTrees.RunsExample | dataStructure/AdjustableChainTree.java:104-118 | a singleton closed by a gap is grouped, and a final singleton is not |
| AdjustableChainTrees.AdjustableChainTree.constructor | dataStructure/AdjustableChainTree.java:42-48 | a valid tree over the points; exactly the bonds 2, 5, 8, ... and the listed helix and sheet bonds are locked; every sheet run, and every helix run that shares no bond with a sheet run, is the span of a node whose whole subtree is locked |
| AdjustableChainTrees.AdjustableChainTree.ChangeRotationAngle | dataStructure/AdjustableChainTree.java:51-57 | an index outside the backbone, or a locked bond, is refused with nothing changed; otherwise it rotates as ChainTree does: only leaf i and its ancestors change, the shape, the locks and consistent volumes are kept, and points 0..i stay |
| AdjustableChainTrees.AdjustableChainTree.RotatableBonds | dataStructure/AdjustableChainTree.java:65-75 | exactly the unlocked bonds, in increasing order |
| AdjustableChainTrees.AdjustableChainTree.Climb | dataStructure/AdjustableChainTree.java:302-307 | every proper ancestor of start is refreshed, all heights become consistent, and the leaves are kept |
| AdjustableChainTrees.AdjustableChainTree.RotateLeft | dataStructure/AdjustableChainTree.java:266-308 | the tree stays valid and is RotatedLeft with its ancestors refreshed; the root moves when b was the root; the leaves and the points are kept |
| AdjustableChainTrees.AdjustableChainTree.RotateRight | dataStructure/AdjustableChainTree.java:316-358 | the same for RotatedRight, with corrected heights |
| AdjustableChainTrees.AdjustableChainTree.Group | dataStructure/AdjustableChainTree.java:217-258 | returns a node spanning exactly i..j whose matrix is the product of leaves i..j; the leaves, locks and points are kept, and every node covering no bond of i..j keeps its children and span |
| AdjustableChainTrees.AdjustableChainTree.GroupLeft | dataStructure/AdjustableChainTree.java:222-237 | ends at a node spanning from i to j or beyond, keeping the leaves |
| AdjustableChainTrees.AdjustableChainTree.StepLeft | dataStructure/AdjustableChainTree.java:224-236 | one pass: the lexicographic measure drops, and the node still starts at i |
| AdjustableChainTrees.AdjustableChainTree.GroupRight | dataStructure/AdjustableChainTree.java:240-257 | ends at a node spanning exactly i..j, keeping the leaves |
| AdjustableChainTrees.AdjustableChainTree.StepRight | dataStructure/AdjustableChainTree.java:242-254 | one pass: the measure drops, the node still ends at j, and it stays within the covering node |
| AdjustableChainTrees.AdjustableChainTree.LiftLeftChild | dataStructure/AdjustableChainTree.java:248-254 | the rotation at the grandparent lifts x, and the covering node follows |
| AdjustableChainTrees.AdjustableChainTree.LockSubtree | dataStructure/AdjustableChainTree.java:173-179 | exactly the subtree's nodes become locked, and nothing else changes |
| AdjustableChainTrees.AdjustableChainTree.GroupAndLock | dataStructure/AdjustableChainTree.java:163-168 | bonds i..j become the span of one node whose whole subtree is locked, the other bonds keep their locks, nodes covering no bond of i..j keep their children, span and lock, and the chain is unchanged |
| AdjustableChainTrees.AdjustableChainTree.LockPeptidePlanes | dataStructure/AdjustableChainTree.java:80-84 | exactly the bonds 2, 5, 8, ... below n are newly locked |
| AdjustableChainTrees.AdjustableChainTree.LockAndGroup | dataStructure/AdjustableChainTree.java:89-119 | an empty list leaves the tree as it was; otherwise exactly the listed bonds are newly locked, each run of the sorted list is the span of a node whose whole subtree is locked, nodes covering no bond of any run keep their children, span and lock, and the points are kept |
| AdjustableChainTrees.AdjustableChainTree.LockBonds | dataStructure/AdjustableChainTree.java:93-99 | exactly the listed bonds become locked, and the list is collected |
| AdjustableChainTrees.AdjustableChainTree.GroupRuns | dataStructure/AdjustableChainTree.java:104-118 | each run that Runs hands over is the span of a node whose whole subtree is locked, later groups keep earlier runs so, nodes covering no bond of any run are kept, and the leaves keep their locks |
| AdjustableChainTrees.AdjustableChainTree.ScanBond | dataStructure/AdjustableChainTree.java:107-114 | one pass: a gap closes the current run, groups it and starts a new one; every run closed so far stays a locked subtree |
| AdjustableChainTrees.AdjustableChainTree.RunAndLock | dataStructure/AdjustableChainTree.java:163-168 | a run that is already locked becomes a locked subtree, the runs before it stay locked subtrees, and the leaves keep their locks |
| NaiveProteins.BondRotation | dataStructure/NaiveProteinRepresentation.java:74-76 | the rotation block about the bond, with a zero translation |
| NaiveProteins.BondTransform | dataStructure/NaiveProteinRepresentation.java:74-76 | a fresh matrix holding BondRotation |
| NaiveProteins.MovedFixesBase | dataStructure/NaiveProteinRepresentation.java:78-86 | a matrix without translation leaves the base where it is |
| NaiveProteins.MovedRigidly | dataStructure/NaiveProteinRepresentation.java:82-89 | the vector between two moved atoms is the old vector, rotated |
| NaiveProteins.ApplyLinear | math/matrix/TransformationMatrix.java:180-188 | without a translation, applying a matrix commutes with differences |
| NaiveProteins.CloseSymmetric | dataStructure/NaiveProteinRepresentation.java:92-104 | closeness does not depend on the order of the two atoms |
| NaiveProteins.NaiveProteinRepresentation.constructor | dataStructure/NaiveProteinRepresentation.java:45-48 | the positions are the given points |
| NaiveProteins.NaiveProteinRepresentation.BackboneAtomPositions | dataStructure/NaiveProteinRepresentation.java:57-59 | the stored positions |
| NaiveProteins.NaiveProteinRepresentation.ChangeRotationAngle | dataStructure/NaiveProteinRepresentation.java:68-90 | fails, changing nothing, when atoms i and i+1 do not exist; otherwise atoms up to i+1 stay, and every later atom is rotated about atom i+1 |
| NaiveProteins.NaiveProteinRepresentation.IsClashing | dataStructure/NaiveProteinRepresentation.java:92-104 | true exactly when two distinct entries lie closer than radius / 2 |
| SegmentAnalysis.HelixSegments | tool/BackboneSegmentAnalyser.java:17-19 | the helix list itself |
| SegmentAnalysis.FirstNotBelow | tool/BackboneSegmentAnalyser.java:25-28 | the first index whose start is not below x; every earlier start is below x |
| SegmentAnalysis.InsertByStartSlots | tool/BackboneSegmentAnalyser.java:30 | the inserted list, slot by slot |
| SegmentAnalysis.InsertByStartSorted | tool/BackboneSegmentAnalyser.java:22-31 | inserting keeps the list ordered by start, with the new segment before equal starts |
| SegmentAnalysis.InsertByStartAdds | tool/BackboneSegmentAnalyser.java:30 | insertion adds exactly the new segment |
| SegmentAnalysis.SortedByStartSorted | tool/BackboneSegmentAnalyser.java:21-33 | the sheets come back ordered by start, each one exactly once |
| SegmentAnalysis.SheetSegments | tool/BackboneSegmentAnalyser.java:21-33 | the loop returns SortedByStart of the sheets |
| SegmentAnalysis.Starts | tool/BackboneSegmentAnalyser.java:44-47 | one start per structure |
| SegmentAnalysis.Ends | tool/BackboneSegmentAnalyser.java:44-47 | one end per structure |
| SegmentAnalysis.Intermediate | tool/BackboneSegmentAnalyser.java:35-60 | one segment fewer than there are structures (none for none), in non-decreasing order of both start and end |
| SegmentAnalysis.IntermediateGaps | tool/BackboneSegmentAnalyser.java:35-60 | for ordered, non-overlapping structures, the intermediate segments are exactly the gaps |
| SegmentAnalysis.IntermediateSegments | tool/BackboneSegmentAnalyser.java:35-60 | the method returns Intermediate, whatever the chain length |
| Sorting.InsertSorted | dataStructure/AdjustableChainTree.java:102 | inserting into an ascending list keeps it ascending and adds exactly x |
| Sorting.AscendingCons | dataStructure/AdjustableChainTree.java:102 | a smaller head keeps a list ascending |
| Sorting.SortInts | dataStructure/AdjustableChainTree.java:102 | the same elements, ascending |
| Sorting.SortIntsSorted | dataStructure/AdjustableChainTree.java:102 | sorting an ascending list leaves it as it is |
| Sorting.InsertLast | dataStructure/AdjustableChainTree.java:102 | inserting a value no smaller than any element appends it |
| Tuples.IntOrd | math/Tuple2.java:45-60 | Integer's order and hash satisfy Comparable's contract |
| Tuples.Equals2 | math/Tuple2.java:28-42 | false for null and non-tuples; otherwise true exactly when both components are equal |
| Tuples.Compare2 | math/Tuple2.java:45-56 | fails when a component is not Comparable; otherwise x decides, then y |
| Tuples.Compare2Order | math/Tuple2.java:45-56 | for well-behaved components: zero exactly on equal tuples, antisymmetric in sign, and transitive |
| Tuples.Hash2 | math/Tuple2.java:60 | xoring with h(y) gives back 37 * h(x), taken mod 2^32 |
| Tuples.Equals3 | math/Tuple3.java:32-46 | false for null and non-tuples; otherwise true exactly when all three components are equal |
| Tuples.Compare3 | math/Tuple3.java:49-66 | fails when a component is not Comparable; otherwise x, then y, then z decides |
| Tuples.Compare3Nested | math/Tuple3.java:49-66 | Tuple3's order is Tuple2's order on (x, (y, z)) |
| Tuples.Hash3 | math/Tuple3.java:70 | the Tuple2 hash of (x, y) xored with h(z) |
| AminoAcids.TypeToInt | chemestry/AminoAcid.java:12-39 | an index below 22 that names the type back |
| AminoAcids.TypeToIntBijective | chemestry/AminoAcid.java:12-39 | typeToInt is a bijection onto 0..21 |
| Profiling.Profiler.constructor | tool/Profiler.java:19-23 | all three maps empty |
| Profiling.Profiler.Enter | tool/Profiler.java:31-43 | refused while the area is being timed; otherwise the count goes up by one (starting at 1) and the visit starts at now |
| Profiling.Profiler.Exit | tool/Profiler.java:51-65 | refused unless the area is being timed; otherwise the elapsed time is added to the total and the visit ends |
| Profiling.Profiler.Stats | tool/Profiler.java:72-84 | one line per counted area, with its count, its total time exactly when the area was timed, and relative time 1 |
| PdbParsing.RecordType | tool/PDBParser.java:93-96 | none exactly when the record is all delimiters; otherwise a non-empty, delimiter-free token |
| PdbParsing.FirstWordOf | tool/PDBParser.java:93-96 | a word that ends at a delimiter, or at the end of the record, is the first word |
| PdbParsing.RecordTypeOf | tool/PDBParser.java:93-96 | whatever delimiters precede it, such a token is the record type |
| PdbParsing.Columns | tool/PDBParser.java:98-104 | succeeds exactly when 0 <= i <= j <= the length, and then holds the characters i..j-1 |
| PdbParsing.ColumnsDropFirst | tool/PDBParser.java:98-104 | called with a field's own column numbers, columns drops the field's first character |
| PdbParsing.SignOfFullWidthCoordinateLost | tool/PDBParser.java:63-65 | on a record whose x coordinate -123.456 fills columns 31-38, the text read is 123.456 |
| PdbParsing.AtomPoint | tool/PDBParser.java:56-67 | a point only for a name starting with N or C, read from the three coordinate fields; a short record or a bad number is an error |
| PdbParsing.RecordPoint | tool/PDBParser.java:35-44 | ATOM records go to parseAtom; HELIX, SHEET and every other record add nothing |
| PdbParsing.Backbone | tool/PDBParser.java:35-44 | the points of the records, in order, or the first error |
| PdbParsing.BackboneAppend | tool/PDBParser.java:35-44 | reading a file in two parts: the first part's points come first, and an error in the second part is the file's error |
| PdbParsing.BackboneFailureStays | tool/PDBParser.java:35-44 | after a record throws, the rest of the file is never read |
| PdbParsing.BackboneWithoutAtoms | tool/PDBParser.java:35-44 | records that are not ATOM never add a point |
| PdbParsing.PdbParser.constructor | tool/PDBParser.java:20-22 | all three collections empty |
| PdbParsing.PdbParser.ParseAtom | tool/PDBParser.java:56-67 | appends AtomPoint's point, or fails as it says, and changes nothing else |
| PdbParsing.Read | tool/PDBParser.java:30-49 | a missing file leaves every collection empty; otherwise the backbone is Backbone of the records, or the first error escapes |

## Left out

- Floating point. Reals stand in for doubles (and, in `transform`, for
  floats). Rounding is not modelled.
- Sine, cosine, square root and normalisation. These are the `Trig`
  record's values. `Vector3D.length`, `norm` and `projectOnto` need a
  square root and are not part of this model.
- Bounding volumes beyond `Empty`. The capsule of boundingVolume/
  LinesegmentSweptSphere.java (its fitting, its overlap test and its
  volume) is a free term. The tree keeps volume consistency as a
  predicate, but proves nothing about geometry.
- Volumes.Combine: an uninterpreted constructor standing for the capsule
  fitted around both volumes (CTNode.java:66). Nothing is claimed about
  what the fitted capsule contains.
- computeTightBoundingVolume (AdjustableChainTree.java:167 and 186-207)
  is left out: after grouping and locking, the model keeps the volumes
  update() computed and does not refit the locked subtree's capsules.
- Leaf spans. The CTLeaf constructor never sets `low` and `high`, yet
  AdjustableChainTree.java reads them at lines 70 and 218-224. The model
  assumes, as those lines need, that leaf `i` covers exactly bond `i`
  (`ChainNodes.NewLeaf`, `ChainShape.LeafOk`).
- Energy. The energy functions are not part of this model. A node's
  energy is the children's sum, as update() computes it.
- Rotations do not refresh the two rotated nodes. rotateLeft and
  rotateRight do not recompute the volume and energy of those nodes
  (only their ancestors), so after a rotation `VolumesOk` is not
  claimed. The matrices and heights are proved consistent.
- AdjustableChainTrees.AdjustableChainTree.RotateRight: it uses the
  corrected heights (see Findings), not the ones at lines 348-349.
- The ChainTree(pdbId) and ChainTree(List) constructors, and
  extractProteinPoints. They only read a file, or pass the origin as the
  offset.
- ChainTrees.ChainTree.constructor: an empty point list needs at least
  one point. The source throws IndexOutOfBoundsException at line 94 for
  it, but a Dafny constructor cannot fail, so this case is excluded by
  the precondition.
- AdjustableChainTrees.AdjustableChainTree.constructor: the helix and
  sheet indices are constructor parameters, and they must lie inside the
  backbone. In the source, an index outside it throws when the bond is
  locked. A helix run that shares a bond with a sheet run is regrouped
  by the sheets, so only helix runs apart from every sheet run are
  promised to remain locked subtrees.
- AdjustableChainTrees.AdjustableChainTree.Group: this requires
  i <= j < n, as all of its callers guarantee. The source does not
  guard a call outside that range.
- Inheritance. AdjustableChainTree extends ChainTree in the source; here
  it holds a ChainTree in a field.
- NaiveProteins.NaiveProteinRepresentation: the list is owned by the
  object. The caller's list, which the source shares, is not aliased.
- NaiveProteins.NaiveProteinRepresentation.IsClashing: the radius is a
  parameter. It is the atomRadius constant of CTLeaf, which is not part
  of this model. Pairs are skipped when their indices are equal, while
  line 95 skips them when the two references are the same object: a list
  holding one Point3D object twice is clashing here but not in the
  source.
- PdbParsing.Read: the file is a parameter.
  - The Scanner over the file named by the PDB id is left out.
  - A missing file is `None`.
  - `Double.parseDouble` is a parameter function that may fail with
    NumberFormatException.
- PDB columns are modelled as written. parseAtom calls `columns` with
  1-based column numbers, so every field loses its first character:
  - the name test reads column 14, which is the element letter for
    names such as " N  " and " CA ";
  - a coordinate that fills all eight columns loses its sign
    (SignOfFullWidthCoordinateLost).
- parseHelix and parseSheet are empty in the source, and stay so here.
- Profiling: the `long` time and `int` counter wrap-around of Java is
  not modelled. Stats returns values, not the formatted text.
- AminoAcid.stringToType and the amino acids' other tables are not part
  of this model.
- Tuples.Hash2 and Tuples.Hash3: the 32-bit wrap is modelled. Nothing is
  claimed about how well the hash separates values.
- Concurrency, the visualisation tools and the CCD / Monte Carlo
  experiments are not part of this model.

## Findings

| source | as written | input that shows it | evidently intended | confidence | as-written member | corrected member |
|---|---|---|---|---|---|---|
| dataStructure/AdjustableChainTree.java:348-349 | after the rewiring `b.right` is already `a`, so `a.height` is computed from `b.left` and `a`'s own old height, and `b.height` follows from that | rotateRight at the root of the three-bond tree ((0 1) 2): `a` ends above leaves 1 and 2 with height 3 instead of 1 | each rotated node's height is one above its taller new child, as in rotateLeft | not executed | TreeRotations.RightRotationHeightsAsWrittenWrong | TreeRotations.RotatedRightHeights |
