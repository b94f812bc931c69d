# voxceleron-engine core, modelled in Dafny

This project models the core of the voxceleron engine, a C++ voxel renderer built on Vulkan and GLFW, and proves properties of that model. It covers six parts of the engine.

- **The sparse voxel octree** of `voxceleron::World` and its payload types:
  - packed voxels and the run-length encoded leaf data;
  - the fixed-block slot allocator;
  - node lookup and creation, `setVoxel` and `getVoxel`;
  - subdivision, optimisation and the level-of-detail pass;
  - node counting;
  - the bookkeeping of mesh generation: the update queue, its sort, the mesh table and cleanup.
- **The dense chunk world:**
  - `Voxel`;
  - `Chunk`: cells, face culling and mesh generation;
  - the chunk-table `World`: world/chunk coordinates, chunk creation, voxel access and the test-world generator.
- **The `Renderer`:**
  - device, format and swap-chain choices;
  - the fence and command-buffer protocol of `draw`;
  - the per-frame performance sampling and the scene statistics.
- **The Vulkan wrappers:**
  - `VulkanContext` bring-up and teardown;
  - the `SwapChain` choices and cleanup;
  - `VulkanDevice::endSingleTimeCommands`;
  - the `Pipeline` lifecycle: initialize, beginFrame, endFrame, recreate and cleanup.
- **`PerformanceMetrics`**: bounded sample windows, running extremes, averages and peaks.
- **`InputSystem`**: bindings, key and mouse events, action values and callbacks.

## Modelling conventions

- **Calls into Vulkan and GLFW** are not part of the model. What such a call answers is a parameter of the operation that makes it (`InitAnswers`, `BeginAnswers`, `EndAnswers`, `DrawAnswers`, `Answers`, `MeshBuild`, …).
- **Handles** are naturals, with 0 standing for `VK_NULL_HANDLE`.
- **Destroy and free calls** are appended to a log (`released`, `destroyed`). This lets cleanup order and completeness be stated and proved.
- **Fences** are Signalled, Unsignalled or Pending, beside a map from each in-flight command buffer to the fence slot that guards it. A wait on an Unsignalled fence with an infinite timeout never returns.
- **Octree nodes** are named by their path of child slots from the root, where the source uses pointers. The tree is a value (`Octree.Node`) held in the `root` field of the `OctreeWorld.World` class.
- **Floating-point values** are `real`:
  - the frame rates and averages;
  - colours;
  - vertex data;
  - input values.
- **Two float computations are oracles** passed in as functions:
  - the float level-of-detail computation of `updateLOD`, which becomes the function `lod`;
  - the float camera distance that orders the mesh queue, which becomes the function `key`.
- **32-bit unsigned arithmetic** is written out wherever the result depends on it:
  - the packing masks;
  - the `minImageCount + 1` increment;
  - `static_cast<uint32_t>`;
  - the mask tests of `findMemoryType`.

- **Rules the source writes more than once** are modelled once:
  - `findMemoryType` in src/engine/vulkan/core/VulkanDevice.cpp:25-37, src/engine/Renderer.cpp:1221-1233 and src/engine/voxel/World.cpp:1094-1106 is `VulkanTypes.FindMemoryType`;
  - the queue-family loop in src/engine/vulkan/core/VulkanContext.cpp:250-266 and src/engine/Renderer.cpp:555-586 is `VulkanTypes.FindQueueFamilies`; the Renderer's copy always starts from empty indices;
  - the surface-format choice in src/engine/Renderer.cpp:659-666 is `SwapChains.ChooseSwapSurfaceFormat`;
  - the image count in src/engine/Renderer.cpp:710-713 is `SwapChains.ChooseImageCount`.

| Dafny file | module | models |
|---|---|---|
| wrappers.dfy | Wrappers, Geometry, Words | Option/Result, `glm::ivec3`, truncating division, the low bit, byte masks |
| voxel_types.dfy | VoxelTypes | voxel/VoxelTypes.h: packed voxels, `LeafData`, `MemoryPool` |
| octree.dfy | Octree | voxel/World.cpp as functions on tree values |
| octree_world.dfy | OctreeWorld | voxel/World.cpp: the `World` class, its loops and its mesh table |
| voxel.dfy | Voxels | Voxel.h |
| chunk.dfy | Chunks | Chunk.h, Chunk.cpp |
| chunk_world.dfy | ChunkWorld | World.h, World.cpp |
| vulkan.dfy | VulkanTypes | memory-type and queue-family search, short-circuit creation chains, fences |
| vulkan_device.dfy | VulkanDevices | vulkan/core/VulkanDevice.cpp |
| vulkan_context.dfy | VulkanContexts | vulkan/core/VulkanContext.cpp |
| swap_chain.dfy | SwapChains | vulkan/core/SwapChain.cpp |
| pipeline.dfy | Pipelines | vulkan/pipeline/Pipeline.cpp |
| renderer_setup.dfy | RendererSetup | Renderer.cpp: device, format, present-mode and extent selection |
| renderer_frames.dfy | RendererFrames | Renderer.cpp: `draw`, `updatePerformanceMetrics`, `calculateStatistics` |
| performance_metrics.dfy | Metrics | Renderer.h `PerformanceMetrics`, PerformanceMetrics.cpp |
| input_system.dfy | Input | core/InputSystem.cpp |

## Model

| member | source | states |
|---|---|---|
| Geometry.TDiv | src/engine/World.h:39-45 | C++ signed division truncates toward zero: the remainder a - q·b has the sign of the dividend and is smaller than the divisor in magnitude, which determines q |
| Geometry.LowBit | src/engine/voxel/World.cpp:112 | `v & 1` on a two's-complement int is 0 or 1 and has the parity of v, negative v included |
| Words.LowByte | src/engine/voxel/VoxelTypes.h:46 | masking with 0xFF leaves a value below 256 |
| Words.HighBytes | src/engine/voxel/VoxelTypes.h:46 | masking with 0xFFFFFF00 leaves the multiple of 256 at or just below the word |
| Words.ByteSplit | src/engine/voxel/VoxelTypes.h:46 | a multiple of 256 or-ed with a byte is still a 32-bit word, and the two masks recover both parts |
| Voxels.Ordinal | src/engine/Voxel.h:6-13 | every voxel type's underlying value is below 6 |
| Voxels.OrdinalBijective | src/engine/Voxel.h:6-13 | the six enumerators are numbered 0 to 5, one-to-one and onto |
| Voxels.DefaultVoxel | src/engine/Voxel.h:20 | the default voxel is inactive white air |
| Voxels.MakeVoxel | src/engine/Voxel.h:22 | the two-argument constructor keeps type and colour; the voxel is solid exactly when the type is not air |
| Voxels.DefaultColorsDistinct | src/engine/Voxel.h:24-38 | only air (the default branch) is white, and different types get different default colours |
| Voxels.Block | src/engine/Voxel.h:22-38 | a voxel built from a type and its default colour has that type and is active exactly when it is not air |
| VoxelTypes.Pack | src/engine/voxel/VoxelTypes.h:46 | the packed word's low byte is the type's low byte and its upper bytes are the colour's |
| VoxelTypes.Unpack | src/engine/voxel/VoxelTypes.h:50-59 | unpacking yields a type below 256 and a colour with a clear low byte, and packing that voxel gives the word back |
| VoxelTypes.UnpackPack | src/engine/voxel/VoxelTypes.h:46-59 | a round trip through the packed word keeps only the type's low byte and the colour's upper bytes; it is the identity exactly for voxels already in that form |
| VoxelTypes.ExpandAppend | src/engine/voxel/VoxelTypes.h:36-48 | run expansion and run totals distribute over concatenation of run lists |
| VoxelTypes.ExpandAppendRuns | src/engine/voxel/VoxelTypes.h:61-71 | decompression of two run lists in sequence is the concatenation of their decompressions |
| VoxelTypes.TotalAppend | src/engine/voxel/VoxelTypes.h:36-48 | the voxel count of two run lists in sequence is the sum of their counts |
| VoxelTypes.NewRunFacts | src/engine/voxel/VoxelTypes.h:37-39 | starting a new run of one adds one voxel and appends its packed word to the expansion |
| VoxelTypes.LongerRunFacts | src/engine/voxel/VoxelTypes.h:40-42 | lengthening the last run adds one voxel and appends that run's packed word |
| VoxelTypes.AppendRunFacts | src/engine/voxel/VoxelTypes.h:36-48 | one addVoxel adds one to the total, appends the packed voxel to the expansion, and keeps runs maximal |
| VoxelTypes.AppendRunMaximal | src/engine/voxel/VoxelTypes.h:37-42 | addVoxel keeps the run list maximal: no empty run and no two adjacent runs holding the same voxel |
| VoxelTypes.EncodeFacts | src/engine/voxel/VoxelTypes.h:36-48 | voxels added one by one to an empty leaf give maximal runs, whose counts sum to the number of voxels and which expand to the packed input |
| VoxelTypes.PackUnpackAll | src/engine/voxel/VoxelTypes.h:73-85 | unpacking a word sequence and packing it again gives the words back |
| VoxelTypes.LeafData.constructor | src/engine/voxel/VoxelTypes.h:32 | a new leaf payload has no runs, no data and a zero total, which is consistent |
| VoxelTypes.LeafData.AddVoxel | src/engine/voxel/VoxelTypes.h:36-48 | the runs grow by AppendRun, the total by one, and the data by the packed voxel; the consistency of runs, total and data is preserved |
| VoxelTypes.LeafData.GetVoxel | src/engine/voxel/VoxelTypes.h:50-59 | in range, the voxel packs back to the stored word (type below 256, colour low byte clear); out of range, it is {0, 0} |
| VoxelTypes.LeafData.DecompressData | src/engine/voxel/VoxelTypes.h:61-71 | only when data is empty and runs are not, data becomes the expansion of the runs; runs and total never change |
| VoxelTypes.LeafData.CompressData | src/engine/voxel/VoxelTypes.h:73-85 | as written, when runs are empty and data is not: the runs become the encoding of the unpacked data and the total its length, but the data ends up doubled; otherwise nothing changes |
| VoxelTypes.LeafData.CompressDataCorrected | src/engine/voxel/VoxelTypes.h:73-85 | as intended: the runs become the encoding of the unpacked data, the data is untouched, and the leaf is consistent afterwards |
| VoxelTypes.CompressDoublesData | src/engine/voxel/VoxelTypes.h:73-85 | a leaf with one directly written word and no runs holds two data words after compressData while its total is 1 |
| VoxelTypes.MemoryPool.constructor | src/engine/voxel/VoxelTypes.h:89-98 | a new pool has the given block size and no blocks |
| VoxelTypes.MemoryPool.Allocate | src/engine/voxel/VoxelTypes.h:100-116 | the slot taken is the first free one in block-then-slot order, and every slot before it was used; a block is appended, with only its slot 0 taken, exactly when no block had a free slot |
| VoxelTypes.MemoryPool.Deallocate | src/engine/voxel/VoxelTypes.h:118-127 | the flag of the slot pointed into is cleared; a pointer outside every block changes nothing |
| Octree.Pow2 | src/engine/voxel/World.cpp:37 | powers of two are at least 1 |
| Octree.SizeAt | src/engine/voxel/World.cpp:261-265 | the edge length at a level is at least 1 and halves from one level to the next, starting from `1 << MAX_LEVEL` at the root |
| Octree.NewOctreeNode | src/engine/voxel/VoxelTypes.h:179-198 | a constructed node sits at the origin with level 0 and size 0, is dirty and not optimised, and (isLeaf starting false) carries an internal payload whose 8 children are null and whose mask bits are clear |
| Octree.NewLeaf | src/engine/voxel/World.cpp:274-284 | the leaf findNode creates has no data and no runs, the given position, size and level, and is dirty |
| Octree.Octant | src/engine/voxel/World.cpp:112 | the parity code of a position names one of the 8 slots |
| Octree.Slot | src/engine/voxel/World.cpp:133 | the slot getVoxel and setVoxel use inside a leaf is below 8 |
| Octree.ChildIndex | src/engine/voxel/World.cpp:264-267 | the octant the descent picks is below 8 |
| Octree.Descend | src/engine/voxel/World.cpp:264-290 | the descent loop visits at most MAX_LEVEL - level children before it stops |
| Octree.Lookup | src/engine/voxel/World.cpp:295-316 | the const findNode returns a node exactly when there is a root and the descent from it reaches a node; null otherwise |
| Octree.ThroughReaches | src/engine/voxel/World.cpp:302-312 | a path the descent loop follows ends at an existing node no deeper than MAX_LEVEL |
| Octree.ThroughDescends | src/engine/voxel/World.cpp:302-312 | the descent along a followed path is that path followed by the descent from the node it ends at |
| Octree.ThroughStep | src/engine/voxel/World.cpp:302-312 | one turn of the loop through a present child extends the followed path by that child's octant |
| Octree.DescendFollowsPath | src/engine/voxel/World.cpp:302-312 | where the descent stops or misses a child, the loop went through exactly the path it reports |
| Octree.DescendThrough | src/engine/voxel/World.cpp:302-312 | the path the descent reports leads to a node at which a restarted descent stops (or misses) at once |
| Octree.NodeAtReplace | src/engine/voxel/World.cpp:288 | a node written at a path is the node found at that path afterwards |
| Octree.ReplaceKeepsThrough | src/engine/voxel/World.cpp:288 | replacing the node at the end of a followed path keeps the loop's way down to it |
| Octree.DescendReplace | src/engine/voxel/World.cpp:264-290 | after replacing the node at the end of a followed path, the descent is the same path followed by the descent from the new node |
| Octree.NodeAtWellFormed | src/engine/voxel/World.cpp:283 | every node of a well-formed tree is well formed and sits one level deeper per step from the root |
| Octree.ReplaceWellFormed | src/engine/voxel/World.cpp:276-285 | putting a well-formed node with the same level and position in place of another keeps the tree well formed |
| Octree.NoNullChild | src/engine/voxel/World.cpp:269-288 | in a well-formed tree a set mask bit always has a child behind it, so the loop never steps into a null pointer |
| Octree.DescentEnd | src/engine/voxel/World.cpp:264-290 | the descent through a well-formed tree ends at a well-formed node: a leaf (or a node at MAX_LEVEL), or an internal node missing the chosen child |
| Octree.ReachedLeaf | src/engine/voxel/World.cpp:264 | a well-formed node at which the descent stops at once is a leaf |
| Octree.MissingInternal | src/engine/voxel/World.cpp:269 | a node at which the descent misses child i is internal, above MAX_LEVEL, with mask bit i clear and child i null |
| Octree.WriteSlotFacts | src/engine/voxel/World.cpp:114-122 | the leaf setVoxel writes stays a well-formed leaf in the same place, holds 8 data words with the packed voxel in its slot, and is dirty |
| Octree.WithChildWellFormed | src/engine/voxel/World.cpp:276-285 | hanging a well-formed child one level down at its octant offset and setting its mask bit keeps the parent well formed |
| Octree.GrowFacts | src/engine/voxel/World.cpp:274-288 | creating the missing child keeps the tree valid and makes the new leaf the node found at the parent's path plus the octant |
| Octree.FindOrCreateReached | src/engine/voxel/World.cpp:260-292 | where the descent reaches a node, findNode(create) leaves the tree alone and returns that node, a well-formed leaf |
| Octree.MissingParent | src/engine/voxel/World.cpp:269 | the node where the descent misses a child is internal, above MAX_LEVEL, well formed and at the depth of its path |
| Octree.FindOrCreateGrows | src/engine/voxel/World.cpp:269-289 | where the descent misses child i below p, findNode(create) hangs a new leaf there and returns it |
| Octree.FindOrCreateMissing | src/engine/voxel/World.cpp:269-289 | the tree findNode(create) grows at a miss is valid and holds the new leaf at p + [i] |
| Octree.FindOrCreateFacts | src/engine/voxel/World.cpp:247-293 | findNode(create) on a valid tree (or none) never returns null, keeps the tree valid and returns a well-formed leaf of it |
| Octree.SetVoxelValid | src/engine/voxel/World.cpp:106-123 | setVoxel keeps the octree valid |
| Octree.ReadWritten | src/engine/voxel/World.cpp:125-141 | getVoxel reads back, unpacked, the word stored in the slot of the leaf the lookup reaches |
| Octree.SetTreeReached | src/engine/voxel/World.cpp:106-123 | where the descent reaches a leaf, setVoxel rewrites that leaf in place |
| Octree.LookupReplacedLeaf | src/engine/voxel/World.cpp:302-315 | putting a leaf at the end of the descent path keeps the lookup finding that path |
| Octree.SetReached | src/engine/voxel/World.cpp:106-123 | where the descent reaches a leaf, setVoxel rewrites it and the lookup still finds it, holding the written leaf |
| Octree.DescendIntoNewChild | src/engine/voxel/World.cpp:276-288 | once a leaf hangs in the missing slot, the descent from its parent stops at that leaf |
| Octree.SetTreeMissing | src/engine/voxel/World.cpp:106-123 | where the descent misses a child, setVoxel hangs a new leaf there with the voxel written into it |
| Octree.LookupNewChild | src/engine/voxel/World.cpp:295-316 | after a leaf is hung in the missing slot, the lookup finds it at p + [i] |
| Octree.DescendNewChild | src/engine/voxel/World.cpp:264-290 | after a leaf is hung in the missing slot, the descent from the root reaches p + [i] |
| Octree.DescendMissingAt | src/engine/voxel/World.cpp:269-271 | a descent that misses child i below p went through p, and a descent resumed at p's node misses i at once |
| Octree.GetAfterSetReached | src/engine/voxel/World.cpp:106-141 | setVoxel then getVoxel at a position reaching an existing leaf gives the voxel's low type byte and high colour bytes |
| Octree.GetAfterSetMissing | src/engine/voxel/World.cpp:106-141 | setVoxel then getVoxel at a position missing a child gives the voxel's low type byte and high colour bytes |
| Octree.SetThenGet | src/engine/voxel/World.cpp:106-141 | after setVoxel(pos, v) on a valid tree the tree stays valid, the lookup finds a node at pos, and getVoxel(pos) returns v with its type reduced to the low byte and its colour's low byte cleared |
| Octree.GetVoxelAt | src/engine/voxel/World.cpp:125-141 | what getVoxel returns is an unpacked slot: a type below 256 and a colour whose low byte is clear (`{0, 0}` when there is no node or no data) |
| Octree.ParitySlot | src/engine/voxel/World.cpp:112 | positions with the same coordinate parities use the same slot of any node |
| Octree.SameSlotSameVoxel | src/engine/voxel/World.cpp:125-141 | two positions sent to the same leaf and slot read the same voxel |
| Octree.SharedSlot | src/engine/voxel/World.cpp:106-141 | a leaf has only 8 slots: after setVoxel(pos, v), any other position reaching the same leaf with the same coordinate parities reads v back too |
| Octree.SharedSlotIn | src/engine/voxel/World.cpp:125-141 | positions reaching the same leaf with the same parities read the same voxel |
| Octree.LookupLeaf | src/engine/voxel/World.cpp:295-316 | on a valid tree the lookup finds nothing or a leaf |
| Octree.GetVoxelDefault | src/engine/voxel/World.cpp:125-141 | getVoxel returns {0,0} where no node covers the position or the leaf reached holds no data |
| Octree.CountNodes | src/engine/voxel/World.cpp:450-469 | countNodes counts at least the node itself, and exactly 1 for a leaf |
| Octree.CountModesAgree | src/engine/voxel/World.cpp:450-469 | on a well-formed tree counting all children and counting only active (mask-bit) children agree |
| Octree.CountModesAgreeFrom | src/engine/voxel/World.cpp:458-465 | the child loop of countNodes gives the same count in both modes on a well-formed node |
| Octree.SumLevelsSplit | src/engine/voxel/World.cpp:471-490 | the per-level counts below a node split into the node itself and the sums over its counted children |
| Octree.LevelCountsSum | src/engine/voxel/World.cpp:450-490 | the counts countNodesByLevel gives for levels 0..MAX_LEVEL add up to countNodes |
| Octree.LevelCountsSumFrom | src/engine/voxel/World.cpp:450-490 | the same over the child loop from slot i on |
| Octree.CountTreeByLevels | src/engine/voxel/World.cpp:450-490 | for a world, the per-level node counts add up to the node count, which is the same in both counting modes |
| Octree.SplitChildren | src/engine/voxel/World.cpp:332-350 | subdivideNode makes exactly 8 children, child i being the split child for slot i |
| Octree.SubdivideFacts | src/engine/voxel/World.cpp:318-353 | subdividing a leaf above MAX_LEVEL gives a dirty internal node with all mask bits set and 8 dirty leaves one level down, half the size, at their octant offsets; each child keeps only its own slot of the parent's data (zeros elsewhere), so the other 7 slots are lost |
| Octree.SubdivideNoOp | src/engine/voxel/World.cpp:319 | subdivideNode changes a node exactly when it is a leaf above MAX_LEVEL |
| Octree.SubdivideWellFormed | src/engine/voxel/World.cpp:318-353 | subdividing keeps a well-formed node well formed, in the same place |
| Octree.ReplaceCount | src/engine/voxel/World.cpp:450-469 | replacing a subtree changes countNodes by the difference of the two subtrees' counts |
| Octree.SubdivideCount | src/engine/voxel/World.cpp:318-353 | subdividing a leaf adds exactly 8 nodes |
| Octree.SubdivideAtFacts | src/engine/voxel/World.cpp:318-353 | subdividing any node of a valid tree keeps it valid and adds 8 to countNodes when the node is a leaf above MAX_LEVEL, 0 otherwise |
| Octree.OptimizeFacts | src/engine/voxel/World.cpp:355-386 | optimizeNode keeps the tree's structure and well-formedness and leaves internal nodes alone; every slot keeps the voxel type getVoxel reads, and a slot's voxel changes only to {0,0} (a uniform type-0 leaf is cleared) |
| Octree.OptimizeChildren | src/engine/voxel/World.cpp:396-400 | the child loop of optimizeNodes returns one entry per child slot |
| Octree.OptimizeWalkNoOp | src/engine/voxel/World.cpp:392-408 | the recursive walk only calls optimizeNode on internal nodes, which it leaves alone, so it changes nothing and raises no flag |
| Octree.OptimizeChildrenNoOp | src/engine/voxel/World.cpp:396-400 | the child loop of that walk changes no child and raises no flag |
| Octree.OptimizeTreeNoOp | src/engine/voxel/World.cpp:388-412 | optimizeNodes never changes the tree and always returns false |
| Octree.DesiredLevel | src/engine/voxel/World.cpp:156-158 | the desired level is clamped to MAX_LEVEL and equals the LOD estimate when that is in range |
| Octree.LodStepWellFormed | src/engine/voxel/World.cpp:161-167 | the split-or-merge step at one node keeps it well formed in the same place |
| Octree.UpdateNode | src/engine/voxel/World.cpp:150-177 | the recursive update keeps a node well formed, at the same level and position |
| Octree.UpdateChildren | src/engine/voxel/World.cpp:170-176 | the child loop keeps each slot's presence, and each updated child well formed one level down at its octant; slots not yet visited are untouched |
| Octree.UpdateTree | src/engine/voxel/World.cpp:143-180 | updateLOD keeps the octree valid and keeps a world without a root without one |
| Octree.UpdateNeverMerges | src/engine/voxel/World.cpp:161-167 | updateLOD never merges: every internal node stays internal with the same children; only leaves may be split |
| Octree.UpdateChildrenKeep | src/engine/voxel/World.cpp:170-176 | the child loop keeps the shape of every child it visits |
| Octree.UpdateLeaf | src/engine/voxel/World.cpp:161-167 | a leaf is split exactly when its desired level is below its level and it is above MAX_LEVEL; an unsplit leaf is unchanged |
| Octree.UpdateNeverSplitsRoot | src/engine/voxel/World.cpp:156-167 | since no desired level is below 0, a leaf root is left exactly as it is |
| Octree.Under | src/engine/voxel/World.cpp:196-201 | the collected paths of a child are its own paths with the child's slot in front |
| Octree.CollectChildren | src/engine/voxel/World.cpp:196-201 | every path the child loop collects from slot i starts with a slot between i and 7 |
| Octree.UnderPreOrder | src/engine/voxel/World.cpp:196-201 | putting one slot in front of pre-ordered paths keeps them pre-ordered |
| Octree.UnderMember | src/engine/voxel/World.cpp:196-201 | a path is collected under slot i exactly when it starts with i and its rest was collected by the child |
| Octree.CollectPreOrder | src/engine/voxel/World.cpp:189-205 | collectNodes queues nodes in pre-order, so no node is queued twice |
| Octree.CollectChildrenPreOrder | src/engine/voxel/World.cpp:196-201 | the child loop of collectNodes queues its nodes in pre-order |
| Octree.PreOrderDistinct | src/engine/voxel/World.cpp:189-205 | two entries of a pre-ordered queue are different nodes |
| Octree.CollectMembers | src/engine/voxel/World.cpp:189-205 | on a well-formed tree, collectNodes queues exactly the nodes that need an update |
| Octree.CollectChildrenMembers | src/engine/voxel/World.cpp:196-201 | the child loop from slot i queues exactly the dirty nodes below slots i..7 |
| Octree.Unflag | src/engine/voxel/World.cpp:182-223 | dropping the needsUpdate flags keeps every node's level, position and kind |
| Octree.UnflagChildren | src/engine/voxel/World.cpp:182-223 | dropping flags keeps each child slot's presence |
| Octree.DirtyClean | src/engine/voxel/World.cpp:220 | clearing one node's needsUpdate clears exactly that flag and keeps every node in place |
| Octree.MeshStepFacts | src/engine/voxel/World.cpp:218-222 | one turn of the mesh loop changes only flags: the queued node stops needing an update exactly when its mesh was built |
| Octree.ProcessQueueFacts | src/engine/voxel/World.cpp:217-222 | the mesh loop changes only flags and clears exactly the flags of the queued nodes whose mesh was built |
| Octree.FlagsDetermine | src/engine/voxel/World.cpp:182-223 | two trees equal once flags are dropped and with the same dirty nodes are equal |
| Octree.QueueOrderIrrelevant | src/engine/voxel/World.cpp:208-222 | any two orders of the same queue give the same tree, so the unstable std::sort and distance ties do not matter |
| Octree.GenerateMeshesFlags | src/engine/voxel/World.cpp:182-223 | after generateMeshes on a well-formed tree a node needs an update exactly when it did before and its mesh was not built; nothing but flags changes |
| Octree.DescendStops | src/engine/voxel/World.cpp:264 | the descent loop does not run at a leaf or at MAX_LEVEL |
| Octree.DescendStep | src/engine/voxel/World.cpp:264-289 | one turn of the loop goes through the chosen child into the next node |
| Octree.DescentLoopStep | src/engine/voxel/World.cpp:264-289 | the findNode loop invariant (the descent from the root is the path so far followed by the descent from the current node) survives a step |
| Octree.DescentLoopExit | src/engine/voxel/World.cpp:264-292 | where the loop stops at a leaf or at MAX_LEVEL, meets a clear mask bit, or meets a null child, the whole descent ends there with that outcome |
| Octree.SetVoxelWrites | src/engine/voxel/World.cpp:106-123 | setVoxel on a valid tree always writes the leaf findNode(pos, true) returns, in the tree findNode leaves behind |
| Octree.ProcessQueueSnoc | src/engine/voxel/World.cpp:217-222 | running one more queued node after the others is one more mesh step |
| Octree.UnflagWellFormed | src/engine/voxel/World.cpp:182-223 | well-formedness does not depend on needsUpdate flags |
| OctreeWorld.Handles | src/engine/voxel/World.cpp:960-979 | cleanupMeshData destroys at most the four handles of a mesh, never a null one, starting with the vertex buffer when there is one |
| OctreeWorld.InsertSorted | src/engine/voxel/World.cpp:208-215 | inserting a node after the keys not above its own and before a larger one keeps the queue sorted and adds exactly that node |
| OctreeWorld.InsertKeepsOrder | src/engine/voxel/World.cpp:208-215 | that insertion keeps the queue sorted by distance key |
| OctreeWorld.InsertPosition | src/engine/voxel/World.cpp:208-215 | the insertion point found is after every key not above the node's and before the first larger one |
| OctreeWorld.SortByKey | src/engine/voxel/World.cpp:208-215 | the sort of the update queue leaves it ordered by distance key (closest first) and a permutation of the collected queue |
| OctreeWorld.DescendLoop | src/engine/voxel/World.cpp:260-290 | the imperative descent loop ends where the descent specification says: reached node, missing child or null child, with the path it followed |
| OctreeWorld.MeshesAfterSnoc | src/engine/voxel/World.cpp:217-222 | one more queued node adds or replaces its mesh exactly when it is present, dirty and built |
| OctreeWorld.MeshesAfterFacts | src/engine/voxel/World.cpp:217-222 | the mesh loop adds or replaces an entry exactly for the queued dirty nodes whose build succeeds, with the new mesh, and keeps every other entry |
| OctreeWorld.QueueOutcome | src/engine/voxel/World.cpp:182-223 | whatever order the collected nodes are queued in, the tree is the one the pre-order queue gives, stays valid, and meshes are built for exactly the dirty nodes whose build succeeds |
| OctreeWorld.MeshLoopStep | src/engine/voxel/World.cpp:218-222 | one turn of the loop cleans the node and stores its mesh exactly when generateMeshForNode succeeds on it |
| OctreeWorld.World.constructor | src/engine/voxel/World.cpp:13-24 | a new world has no root, no meshes and has released nothing |
| OctreeWorld.World.Initialize | src/engine/voxel/World.cpp:31-56 | the root becomes a full-size leaf at the origin; the result is true exactly when both the renderer and the compute pipeline set up; a failure keeps the new root |
| OctreeWorld.World.FindNode | src/engine/voxel/World.cpp:247-316 | with create, the tree and returned node are those of findNode(create) (a missing root is made, a missing child is hung as a leaf); without create, nothing changes and the result is the lookup |
| OctreeWorld.World.SetVoxel | src/engine/voxel/World.cpp:106-123 | the tree becomes the one setVoxel specifies (the leaf findNode(create) returns, sized to 8 slots, with the packed voxel in the position's slot and marked dirty), and stays valid |
| OctreeWorld.World.SubdivideNode | src/engine/voxel/World.cpp:318-353 | a null or absent node changes nothing; otherwise the node is subdivided as specified and the tree stays valid |
| OctreeWorld.World.CreateChildren | src/engine/voxel/World.cpp:331-350 | the child loop sets all eight mask bits and makes child i the split child for octant i |
| OctreeWorld.World.OptimizeNode | src/engine/voxel/World.cpp:355-386 | a null or absent node changes nothing; otherwise the node is replaced by its optimised form and the tree stays valid |
| OctreeWorld.World.OptimizeNodes | src/engine/voxel/World.cpp:388-412 | optimizeNodes returns false and leaves the tree unchanged |
| OctreeWorld.World.UpdateLOD | src/engine/voxel/World.cpp:143-180 | the tree becomes the updateLOD result for the given level oracle and stays valid |
| OctreeWorld.World.CleanupMeshData | src/engine/voxel/World.cpp:960-979 | every non-null handle of the mesh is destroyed once, in source order, and the entry is left empty |
| OctreeWorld.World.GenerateMeshForNode | src/engine/voxel/World.cpp:654-958 | true exactly when the node exists, is dirty and the GPU build succeeds; then its mesh is replaced, the old one's handles released when it had a vertex buffer; otherwise nothing changes |
| OctreeWorld.World.MeshQueued | src/engine/voxel/World.cpp:218-222 | one turn of the loop takes the state after a queue prefix to the state after one more node |
| OctreeWorld.World.GenerateMeshes | src/engine/voxel/World.cpp:182-223 | with no root nothing happens; otherwise exactly the dirty nodes whose build succeeds become clean and hold their new mesh, every other entry is kept, and the tree stays valid |
| OctreeWorld.World.Cleanup | src/engine/voxel/World.cpp:58-104 | what is released is exactly the handles of the old mesh table, each as often as the table holds it, after the earlier releases; the table is emptied and the root released |
| OctreeWorld.World.ReleaseMeshes | src/engine/voxel/World.cpp:58-104 | the loop over the mesh table, in whatever order the unordered map yields, releases exactly the handles of its entries and nothing else, keeping earlier releases |
| OctreeWorld.KeyHandlesSplit | src/engine/voxel/World.cpp:58-104 | the handles of a set of entries do not depend on the order the entries are visited in |
| OctreeWorld.KeyHandlesMembers | src/engine/voxel/World.cpp:58-104 | a handle counts among those of a set of entries exactly when one of the entries holds it |
| OctreeWorld.ReleaseCount | src/engine/voxel/World.cpp:58-104 | cleaning one more entry adds exactly its handles to what the loop has released |
| OctreeWorld.World.ReleaseEntry | src/engine/voxel/World.cpp:58-104 | one turn of the loop cleans one entry up and adds exactly its handles to what the loop has released, keeping earlier releases |
| OctreeWorld.KeyHandlesAdd | src/engine/voxel/World.cpp:58-104 | counting one more entry adds exactly its handles |
| OctreeWorld.CountedAreReleased | src/engine/voxel/World.cpp:58-104 | when the releases are exactly the table's handles, every handle of every entry was released |
| Chunks.Index | src/engine/Chunk.h:44-46 | the index of an in-bounds cell is below 4096 |
| Chunks.IndexCoords | src/engine/Chunk.h:44-46 | the index gives back the coordinates it was computed from (x fastest, then y, then z) |
| Chunks.IndexOnto | src/engine/Chunk.h:44-46 | every index below 4096 is the index of exactly the in-bounds cell its coordinates name |
| Chunks.IndexInjective | src/engine/Chunk.h:44-46 | distinct in-bounds cells have distinct indices |
| Chunks.AirCells | src/engine/Chunk.cpp:3-8 | a new chunk holds 4096 cells, all the default air voxel |
| Chunks.SetCell | src/engine/Chunk.cpp:26-30 | setVoxel keeps the chunk at 4096 cells |
| Chunks.SetThenGet | src/engine/Chunk.cpp:10-30 | after setVoxel, getVoxel at the written in-bounds cell returns the voxel, and every other read (including every out-of-bounds read) is unchanged |
| Chunks.CornersOnFace | src/engine/Chunk.cpp:62-140 | every one of the six corners generateMesh emits for a face lies in the unit cube, on the side the face's normal points to |
| Chunks.Vertex | src/engine/Chunk.cpp:68 | one vertex is 9 floats: position, colour, normal |
| Chunks.VertexRun | src/engine/Chunk.cpp:66-74 | a run of corners gives 9 floats per corner |
| Chunks.FaceVertices | src/engine/Chunk.cpp:66-74 | a face is 54 floats |
| Chunks.VertexRunContents | src/engine/Chunk.cpp:66-74 | vertex k of a run is corner k placed at the cell's world position, with the colour and normal |
| Chunks.FaceVertexContents | src/engine/Chunk.cpp:62-140 | vertex k of a face is that face's k-th corner at the cell's world position, with the voxel's colour and the face's normal |
| Chunks.FaceStep | src/engine/Chunk.cpp:62-140 | testing the next face in the order +Z, -Z, +X, -X, +Y, -Y and appending it when exposed extends the faces emitted so far |
| Chunks.FacesSize | src/engine/Chunk.cpp:62-140 | a cell's faces take 54 floats per exposed face |
| Chunks.MeshSize | src/engine/Chunk.cpp:45-144 | the vertex buffer holds exactly 54 floats, six whole vertices, per exposed face of a solid voxel |
| Chunks.NoSolidNoMesh | src/engine/Chunk.cpp:52-53 | a chunk without solid voxels has an empty mesh |
| Chunks.CellFacesSplit | src/engine/Chunk.cpp:31-43 | each of the six faces of a solid voxel is either emitted or has a solid in-bounds neighbour; inactive voxels have neither |
| Chunks.StatisticsMatchMesh | src/engine/Chunk.cpp:45-144 | six faces per solid voxel equal the emitted faces plus the faces hidden by a solid neighbour |
| Chunks.Chunk.constructor | src/engine/Chunk.cpp:3-8 | a new chunk keeps its position, has every cell air and an empty vertex buffer |
| Chunks.Chunk.GetVoxel | src/engine/Chunk.cpp:10-24 | the cell at (x, y, z), or the default air voxel outside the chunk |
| Chunks.Chunk.SetVoxel | src/engine/Chunk.cpp:26-30 | the array changes in the one in-bounds cell only, and not at all out of bounds |
| Chunks.Chunk.ShouldRenderFace | src/engine/Chunk.cpp:31-43 | a face is rendered exactly when its neighbour is outside the chunk or not solid |
| Chunks.Chunk.GenerateMesh | src/engine/Chunk.cpp:45-144 | the buffer is replaced by the chunk mesh: for each solid voxel in index order, the 54 floats of each exposed face in face order |
| Chunks.Chunk.EmitFace | src/engine/Chunk.cpp:64-75 | one face block appends that face's 54 floats exactly when it is exposed |
| Chunks.Chunk.EmitCell | src/engine/Chunk.cpp:52-140 | the innermost loop body appends nothing for an inactive voxel and otherwise the voxel's exposed faces in order |
| ChunkWorld.DivUnique | src/engine/World.h:39-45 | a quotient and remainder in range are the floor division's |
| ChunkWorld.ChunkCoordIsFloor | src/engine/World.h:39-54 | shifting a negative coordinate down by 15 before C's truncating division gives floor division, and the local coordinate is the (non-negative) remainder |
| ChunkWorld.WorldToChunkPos | src/engine/World.h:39-45 | the chunk key of a position is its floor division by the chunk size, the chunk ChunkOf names |
| ChunkWorld.WorldToLocalPos | src/engine/World.h:47-54 | the local coordinates lie in 0..15 and, with the chunk key, add back up to the world position |
| ChunkWorld.LocalInChunk | src/engine/World.h:47-54 | the local coordinate lies in 0..15, and chunk origin plus local coordinate gives back the world coordinate |
| ChunkWorld.ChunkLocalInjective | src/engine/World.h:39-54 | world coordinates with the same chunk and local coordinates are equal |
| ChunkWorld.NewChunkMeshCurrent | src/engine/Chunk.cpp:3-8 | a new chunk's empty vertex buffer is the mesh of its all-air cells |
| ChunkWorld.CreateChunkFacts | src/engine/World.cpp:11-15 | createChunk keeps the table valid, makes the key present, keeps every existing chunk (an existing key is not replaced) and changes no voxel |
| ChunkWorld.SetVoxelFacts | src/engine/World.cpp:34-46 | setVoxel keeps the table valid (each written chunk's mesh regenerated), keeps every chunk key, and changes exactly the voxel at the written world position |
| ChunkWorld.TreesFacts | src/engine/World.cpp:119-123 | the five addTree calls over the ground leave the ground intact and each of the five trees complete (canopies are disjoint and above the grass), and change no cell outside the trees |
| ChunkWorld.TestWorldKeys | src/engine/World.cpp:48-124 | the test world holds exactly its earlier chunks, the 3x3 ground chunks and the four chunks at height 16-31 that the canopy over the origin reaches |
| ChunkWorld.TreeCellChunk | src/engine/World.cpp:97-116 | every cell of a tree within 12 of the origin lies in one of the eight chunks at x, z in {-1, 0} and y in {0, 1} |
| ChunkWorld.ColumnCellChunk | src/engine/World.cpp:55-92 | every cell the ground loops of a chunk column write lies in that column's chunk at y 0 |
| ChunkWorld.TableExtensional | src/engine/World.cpp:21-46 | a valid chunk table is determined by its keys and the voxel read at every world position |
| ChunkWorld.SetVoxelDetermined | src/engine/World.cpp:34-46 | the keys and voxels the world's setVoxel promises determine the table completely |
| ChunkWorld.PaintStart | src/engine/World.cpp:55-115 | before a box-filling loop runs, nothing of the box is written |
| ChunkWorld.PaintStep | src/engine/World.cpp:55-115 | writing the cell of iteration (i, j, k) extends the written part of the box by that cell |
| ChunkWorld.PaintSkip | src/engine/World.cpp:109-110 | the skipped corner columns of the canopy write nothing and the loop moves on |
| ChunkWorld.PaintCarryZ | src/engine/World.cpp:55-115 | the end of the innermost loop is the start of the next middle iteration |
| ChunkWorld.PaintCarryY | src/engine/World.cpp:55-115 | the end of the middle loop is the start of the next outer iteration |
| ChunkWorld.PaintDone | src/engine/World.cpp:55-115 | after the last outer iteration every cell of the box holds the voxel and nothing else changed |
| ChunkWorld.World.constructor | src/engine/World.cpp:3-4 | a new world has no chunks |
| ChunkWorld.World.GetChunk | src/engine/World.cpp:6-9 | the chunk at the key exactly when the key is present, null otherwise |
| ChunkWorld.World.CreateChunk | src/engine/World.cpp:11-15 | inserts a new all-air chunk only when the key is absent |
| ChunkWorld.World.RemoveChunk | src/engine/World.cpp:17-19 | erases that key and no other |
| ChunkWorld.World.GetVoxel | src/engine/World.cpp:21-32 | the cell of the position's chunk at its local coordinates, or the default air voxel when that chunk is absent |
| ChunkWorld.World.SetVoxel | src/engine/World.cpp:34-46 | the position's chunk is created when absent, exactly that world position reads the new voxel, and every chunk's mesh stays current |
| ChunkWorld.World.PaintCell | src/engine/World.cpp:55-115 | one write of a box-filling loop extends the written region by one cell, and adds at most the chunk of that cell |
| ChunkWorld.World.FillStone | src/engine/World.cpp:55-67 | every cell of the chunk column's lower half becomes stone and nothing else changes; no chunk but the column's own is added |
| ChunkWorld.World.FillLayer | src/engine/World.cpp:69-92 | every cell of the chunk column at the given height becomes the given block and nothing else changes; no chunk but the column's own is added |
| ChunkWorld.World.FillColumn | src/engine/World.cpp:50-95 | a chunk column gets stone below height 8, dirt at 8 and grass at 9; nothing else changes, and the keys gain exactly that column's chunk |
| ChunkWorld.World.PlaceTrunk | src/engine/World.cpp:101-104 | five wood cells upward from height 10 at the tree's column, nothing else; new chunks only among the tree chunks |
| ChunkWorld.World.PlaceLeafRow | src/engine/World.cpp:107-115 | one row of the leaf loops writes leaves in its five cells minus the canopy's corner columns; new chunks only among the tree chunks |
| ChunkWorld.World.PlaceCanopy | src/engine/World.cpp:107-115 | a 5 by 4 by 5 block of leaves over the trunk top, without its four corner columns; nothing else changes; new chunks only among the tree chunks |
| ChunkWorld.World.AddTree | src/engine/World.cpp:97-116 | afterwards the canopy cells are leaves, the trunk cells below them wood, and every other voxel as before; no chunk is lost and new ones lie among the tree chunks |
| ChunkWorld.World.GenerateTestWorld | src/engine/World.cpp:48-124 | stone, dirt and grass fill the 3x3 chunk columns around the origin, and the five trees stand complete at (0,0), (10,10), (-10,-10), (10,-10) and (-10,10); every other cell keeps its voxel, and the keys become the old ones plus the nine ground chunks and the four chunks above the origin that the top canopy layer (height 16) creates |
| Input.ValuesAfterAppend | src/engine/core/InputSystem.cpp:133 | one more triggerAction stores its value last |
| Input.CallsOfInvokesEachOnce | src/engine/core/InputSystem.cpp:132-140 | triggerAction invokes nothing for an action without callbacks, and otherwise each of its callbacks exactly once, in registration order, with the action and the value |
| Input.InvocationsInOrder | src/engine/core/InputSystem.cpp:136-138 | the callback loop makes one invocation per registered callback, the i-th with the i-th callback |
| Input.CallsForAppend | src/engine/core/InputSystem.cpp:132-140 | one more triggerAction appends its invocations after the earlier ones |
| Input.PassStepSilent | src/engine/core/InputSystem.cpp:142-197 | a binding that does not fire on the event changes neither the values nor the invocations |
| Input.FireAssigns | src/engine/core/InputSystem.cpp:132-197 | after a firing binding's triggerAction the action values are the pass's values over one more binding |
| Input.FireInvokes | src/engine/core/InputSystem.cpp:132-197 | after a firing binding's triggerAction the log holds the pass's invocations over one more binding, the new ones after the earlier ones |
| Input.ActionActive | src/engine/core/InputSystem.cpp:104-107 | an action is active exactly when its value (0 when never set) is not zero |
| Input.LastAssignmentWins | src/engine/core/InputSystem.cpp:132-140 | after a sequence of triggerAction calls an action holds the value of the last call for it, and keeps its earlier value or absence when there was none |
| Input.KeyApplied | src/engine/core/InputSystem.cpp:78-102 | a key event maps each binding separately, keeping the table's length |
| Input.KeyEventTouchesOnlyItsKey | src/engine/core/InputSystem.cpp:78-102 | a key event changes only the bindings of its key and only their active flag: set by PRESS, cleared by RELEASE, kept by REPEAT (and any other code) |
| Input.KeyFiresAreOne | src/engine/core/InputSystem.cpp:85-96 | every action a key event triggers gets the value 1 |
| Input.LastValueIsFired | src/engine/core/InputSystem.cpp:132-140 | the value an action ends with is one of the values triggered |
| Input.FiringBindingAssigns | src/engine/core/InputSystem.cpp:142-197 | a binding that fires in a pass gives its action a value |
| Input.PressActivatesAction | src/engine/core/InputSystem.cpp:78-107 | after a key press, the action of every PRESS binding of that key holds 1 and is active, whatever else the event triggered |
| Input.AxisRefreshLastWins | src/engine/core/InputSystem.cpp:150-157 | the axis refresh gives an action the value of its last AXIS binding: its scale when active, else 0 |
| Input.AxisLastBindingWins | src/engine/core/InputSystem.cpp:150-157 | after the refresh an action with an AXIS binding holds that value whatever it held before, so the continuous pass before it in update cannot show through |
| Input.KeyFiresComeFromMatchingBindings | src/engine/core/InputSystem.cpp:78-102 | every action a key event triggers belongs to a binding of that key whose type matches the event |
| Input.Without | src/engine/core/InputSystem.cpp:46-54 | removeBinding keeps exactly the bindings not matching both the action and the key, never more than before |
| Input.WithoutUnmatchedIsIdentity | src/engine/core/InputSystem.cpp:46-54 | removing a binding that is not there leaves the table as it was |
| Input.WithoutKeepsOrder | src/engine/core/InputSystem.cpp:46-54 | removal works piece by piece over a concatenation, so the kept bindings keep their order |
| Input.WithoutIsIdempotent | src/engine/core/InputSystem.cpp:46-54 | removing twice removes nothing more |
| Input.CString | src/engine/core/InputSystem.cpp:121-125 | strlen and strcmp see the NUL-free prefix of the bytes, ending at the first NUL when there is one |
| Input.CharValue | src/engine/core/InputSystem.cpp:126 | `name[0]` is a signed char: the byte's value modulo 256, in -128..127, unchanged below 128 |
| Input.KeyFromName | src/engine/core/InputSystem.cpp:118-130 | a null name gives GLFW_KEY_UNKNOWN; a name of exactly one byte (strlen 1) gives toupper of that byte read as a char; a name of any other byte length that is not one of the three words is unknown |
| Input.UpperCase | src/engine/core/InputSystem.cpp:126 | toupper in the C locale: lower-case ASCII letters move up by 32 to upper case, every other char value stays |
| Input.LetterNamesResolve | src/engine/core/InputSystem.cpp:118-130 | both cases of a letter name the same GLFW letter key, GLFW_KEY_A onwards |
| Input.WordNamesResolve | src/engine/core/InputSystem.cpp:118-123 | "space", "escape" and "enter" name their keys whatever follows their terminating NUL |
| Input.OtherNamesUnknown | src/engine/core/InputSystem.cpp:118-130 | "ä", two bytes in UTF-8, is unknown, as is any other name whose strlen is not 1 and which is not one of the three words |
| Input.TerminatedPrefix | src/engine/core/InputSystem.cpp:121-125 | a NUL-free byte string followed by a NUL is exactly what strlen and strcmp see |
| Input.InputSystem.constructor | src/engine/core/InputSystem.cpp:9-11 | a new input system has no bindings, callbacks or action values, and the mouse at 0 |
| Input.InputSystem.AddBinding | src/engine/core/InputSystem.cpp:36-44 | one inactive binding with the given key, type, action and scale is appended |
| Input.InputSystem.RemoveBinding | src/engine/core/InputSystem.cpp:46-54 | every binding of that action and key is erased and the rest keep their order |
| Input.InputSystem.ClearBindings | src/engine/core/InputSystem.cpp:56-59 | bindings and action values are emptied; callbacks stay |
| Input.InputSystem.AddActionCallback | src/engine/core/InputSystem.cpp:61-63 | the callback is registered after the action's earlier ones |
| Input.InputSystem.RemoveActionCallback | src/engine/core/InputSystem.cpp:65-67 | every callback of that action is dropped and no other |
| Input.InputSystem.ClearActionCallbacks | src/engine/core/InputSystem.cpp:69-71 | no callbacks remain |
| Input.InputSystem.TriggerAction | src/engine/core/InputSystem.cpp:132-140 | the value is stored for the action, then the action's callbacks are invoked in registration order |
| Input.InputSystem.FireBinding | src/engine/core/InputSystem.cpp:142-197 | the turn of one binding in a pass extends the pass's effect by that binding |
| Input.InputSystem.ApplyFire | src/engine/core/InputSystem.cpp:132-197 | a firing binding's triggerAction call extends the pass's effect by that binding |
| Input.InputSystem.TriggerPass | src/engine/core/InputSystem.cpp:142-148 | every binding that fires on the event triggers its action, in binding order |
| Input.InputSystem.HandleKeyEvent | src/engine/core/InputSystem.cpp:78-102 | bindings of the key are activated or deactivated as the event says, and each one whose type matches triggers its action with 1, in binding order |
| Input.InputSystem.UpdateAxisValues | src/engine/core/InputSystem.cpp:150-157 | each AXIS binding sets its action to its scale when active and to 0 otherwise, without invoking callbacks |
| Input.InputSystem.Update | src/engine/core/InputSystem.cpp:73-76 | active CONTINUOUS bindings trigger with deltaTime times scale, then the AXIS refresh runs |
| Input.InputSystem.HandleMouseButton | src/engine/core/InputSystem.cpp:159-168 | left, right and middle are key events on their GLFW button codes (press or release); any other button changes nothing |
| Input.InputSystem.HandleMouseMove | src/engine/core/InputSystem.cpp:170-189 | the position is recorded, and AXIS bindings of the left button trigger with the x delta times scale, of the right button with the y delta times scale |
| Input.InputSystem.HandleMouseScroll | src/engine/core/InputSystem.cpp:191-197 | AXIS bindings of the middle button trigger with the offset times scale |
| Input.InputSystem.IsActionActive | src/engine/core/InputSystem.cpp:104-107 | true exactly when the action's value is stored and not zero |
| Input.InputSystem.GetActionValue | src/engine/core/InputSystem.cpp:109-112 | the stored value of the action, else 0 |
| Metrics.Min | src/engine/PerformanceMetrics.cpp:36 | std::min: at most both arguments and equal to one of them |
| Metrics.Max | src/engine/PerformanceMetrics.cpp:37 | std::max: at least both arguments and equal to one of them |
| Metrics.Pushed | src/engine/PerformanceMetrics.cpp:24-27 | push_back then pop_front past capacity keeps a window within its capacity, ending with the new sample |
| Metrics.Latest | src/engine/PerformanceMetrics.cpp:24-33 | a window holds the last n samples, or all of them while there are fewer |
| Metrics.LatestElements | src/engine/PerformanceMetrics.cpp:24-33 | the window's elements are the latest samples, oldest first |
| Metrics.PushedKeepsLatest | src/engine/PerformanceMetrics.cpp:24-33 | a bounded window fed one sample at a time holds exactly the latest samples: pushing onto the window of s gives the window of s followed by the sample |
| Metrics.RunningBounds | src/engine/PerformanceMetrics.cpp:36-37 | the running minimum and maximum bound their start values and every sample |
| Metrics.SumBetween | src/engine/PerformanceMetrics.cpp:38-42 | a sum of n values between lo and hi lies between n times lo and n times hi |
| Metrics.Average | src/engine/PerformanceMetrics.cpp:38-42 | the loop's sum divided by the window size is the arithmetic mean of the one-minute window |
| Metrics.Sample | src/engine/PerformanceMetrics.cpp:22-43 | one update keeps the series equal to what its samples determine (windows of the latest 60 and 300, all-time extremes starting from FLT_MAX and 0, the one-minute mean), and the average lies between the extremes |
| Metrics.AverageWithinExtremes | src/engine/PerformanceMetrics.cpp:36-42 | the one-minute average never leaves the all-time minimum and maximum |
| Metrics.MeanBetween | src/engine/PerformanceMetrics.cpp:38-42 | the mean of values between lo and hi lies between lo and hi |
| Metrics.QuotientBetween | src/engine/PerformanceMetrics.cpp:42 | dividing the bounded sum by the positive window size keeps it between lo and hi |
| Metrics.PeakBounds | src/engine/PerformanceMetrics.cpp:18-19 | the peak is at least every sample and is one of them unless it is 0 |
| Metrics.Recorded | src/engine/PerformanceMetrics.cpp:3-20 | the figure stores the sample, its peak only rises and covers the sample, and its window stays within 60 samples |
| Metrics.RecordedKeepsMemoryOf | src/engine/PerformanceMetrics.cpp:3-20 | recording a sample keeps a memory figure equal to what its samples determine: the last sample, the latest 60, and the peak |
| Metrics.PerformanceMetrics.constructor | src/engine/Renderer.h:31-51 | empty windows, minimum at FLT_MAX, maximum and averages 0, counters and memory figures 0 |
| Metrics.PerformanceMetrics.UpdateMemoryUsage | src/engine/PerformanceMetrics.cpp:3-20 | both RAM and VRAM figures record their sample: current value, one-minute window and peak |
| Metrics.PerformanceMetrics.UpdateFPS | src/engine/PerformanceMetrics.cpp:22-43 | the frame-rate series records the sample (windows, extremes and average as its samples determine) and its average lies between its extremes |
| Metrics.PerformanceMetrics.UpdateUPS | src/engine/PerformanceMetrics.cpp:45-66 | the same for the update-rate series |
| Metrics.PerformanceMetrics.FPSHistory1MinVector | src/engine/PerformanceMetrics.cpp:68-70 | the latest 60 frame-rate samples, oldest first |
| Metrics.PerformanceMetrics.UPSHistory1MinVector | src/engine/PerformanceMetrics.cpp:72-74 | the latest 60 update-rate samples, oldest first |
| Metrics.PerformanceMetrics.FPSHistory5MinVector | src/engine/PerformanceMetrics.cpp:76-78 | the latest 300 frame-rate samples, oldest first |
| Metrics.PerformanceMetrics.UPSHistory5MinVector | src/engine/PerformanceMetrics.cpp:80-82 | the latest 300 update-rate samples, oldest first |
| Pipelines.AsSlot | src/engine/vulkan/pipeline/Pipeline.cpp:125-189 | a vector entry counts as null exactly when it is VK_NULL_HANDLE, and otherwise names that handle |
| Pipelines.SlotRelease | src/engine/vulkan/pipeline/Pipeline.cpp:141-159 | a single member is destroyed exactly when it is not null (an uninitialised member is not null) |
| Pipelines.NoSyncNoReleases | src/engine/vulkan/pipeline/Pipeline.cpp:162-172 | with empty synchronisation vectors the sync loop destroys nothing |
| Pipelines.SecondCleanupReleasesNothing | src/engine/vulkan/pipeline/Pipeline.cpp:120-216 | cleanup leaves every member null and every vector empty, so a second cleanup destroys nothing |
| Pipelines.FreshCleanupDestroysGarbage | src/engine/vulkan/pipeline/Pipeline.cpp:120-216 | the cleanup of a pipeline that was only constructed passes exactly the four uninitialised members (descriptor pool, descriptor set layout, vertex buffer, its memory) to destroy calls, since the constructor at lines 12-24 never sets them |
| Pipelines.StepsKeepVertexBuffer | src/engine/vulkan/pipeline/Pipeline.cpp:726-730 | no creation step touches the vertex buffer or its memory |
| Pipelines.StepsKeepAligned | src/engine/vulkan/pipeline/Pipeline.cpp:55-60 | creation steps keep the three uniform-buffer vectors the same length |
| Pipelines.InitializedCleanupDestroysGarbage | src/engine/vulkan/pipeline/Pipeline.cpp:31-216 | whatever Vulkan answers, the cleanup after initialising a fresh pipeline still destroys the uninitialised vertex buffer and frees its uninitialised memory |
| Pipelines.BeginFrameStep | src/engine/vulkan/pipeline/Pipeline.cpp:218-287 | beginFrame refuses unless READY; it keeps the frame index and the fence invariant; it changes state only to RECREATING on an out-of-date acquire; success leaves this frame's fence reset |
| Pipelines.EndFrameStep | src/engine/vulkan/pipeline/Pipeline.cpp:311-362 | endFrame refuses unless READY; it keeps the fence invariant; it succeeds exactly when the frame index advances (modulo 2); it changes state only to RECREATING, on a successful out-of-date or suboptimal present |
| Pipelines.OutOfDateAcquireKeepsFence | src/engine/vulkan/pipeline/Pipeline.cpp:237-239 | an out-of-date acquire returns false before the reset, switches to RECREATING and leaves the fence signalled |
| Pipelines.BeginFailureStrandsFence | src/engine/vulkan/pipeline/Pipeline.cpp:246-258 | a failed vkBeginCommandBuffer returns after the fence reset with the state still READY, so the next beginFrame waits forever on that fence |
| Pipelines.BeginThenSubmitKeepsFencesLive | src/engine/vulkan/pipeline/Pipeline.cpp:218-362 | a successful beginFrame followed by endFrame's submit leaves every fence signalled or pending, so later frames never hang |
| Pipelines.Pipeline.constructor | src/engine/vulkan/pipeline/Pipeline.cpp:12-24 | UNINITIALIZED at frame 0 and image 0, with the four members left uninitialised and nothing created or released |
| Pipelines.Pipeline.Initialize | src/engine/vulkan/pipeline/Pipeline.cpp:31-53 | refused with "Pipeline is already initialized" unless UNINITIALIZED; otherwise the eleven creation steps run in order up to the first failure, whose message, that of the call inside the step that failed, is the last error, and the state is READY exactly when all succeed |
| Pipelines.Pipeline.InitializeFresh | src/engine/vulkan/pipeline/Pipeline.cpp:37-52 | past the state check: the creation steps in order up to the first failure, READY exactly when all succeed; on failure the last error is the message of the call that failed inside the last step |
| Pipelines.Pipeline.RefuseInitialize | src/engine/vulkan/pipeline/Pipeline.cpp:32-35 | the refusal sets only the error message |
| Pipelines.Pipeline.MarkReady | src/engine/vulkan/pipeline/Pipeline.cpp:51 | the state becomes READY and nothing else changes |
| Pipelines.Pipeline.RunInitChain | src/engine/vulkan/pipeline/Pipeline.cpp:37-52 | the short-circuit chain attempts its steps up to and including the first failure, applies their effects, and is READY exactly when all succeed; on failure the last error is the failing call's message |
| Pipelines.Pipeline.FailInitChain | src/engine/vulkan/pipeline/Pipeline.cpp:37-48 | a failing step ends the chain as its last attempted step, and the last error is the message of the call inside it that failed |
| Pipelines.ChainStep | src/engine/vulkan/pipeline/Pipeline.cpp:37-52 | running one more step of the chain extends both the recorded steps and the applied effects by that step |
| Pipelines.Pipeline.RunInitStep | src/engine/vulkan/pipeline/Pipeline.cpp:37-47 | one creation step is recorded and either sets the members it creates (the fences signalled for the sync step) or sets the message of the call that failed: shader modules, pipeline layout or pipeline for the graphics pipeline, buffer or memory for the uniform buffers |
| Pipelines.StepErrors | src/engine/vulkan/pipeline/Pipeline.cpp:70-87 | one message per call of the step that can fail: three in createGraphicsPipeline (shader modules, layout, pipeline), two in createUniformBuffers (buffer, memory), none in createVertexBuffer, one in every other step (also lines 113, 459, 475, 494, 617, 654, 673, 693, 718, 775, 797) |
| Pipelines.StepErrorsDistinct | src/engine/vulkan/pipeline/Pipeline.cpp:469-620 | no two ways of failing set the same message, so the last error identifies the step and the call that failed |
| Pipelines.StepErrorNamesFailure | src/engine/vulkan/pipeline/Pipeline.cpp:37-48 | the last error of a failing step is one of that step's own messages, and two failures leave the same message exactly when they are the same call of the same step |
| Pipelines.Pipeline.BeginFrame | src/engine/vulkan/pipeline/Pipeline.cpp:218-287 | the pipeline's frame state and outcome are beginFrame's, and a failure stores its message |
| Pipelines.Pipeline.EndFrame | src/engine/vulkan/pipeline/Pipeline.cpp:311-362 | the pipeline's frame state and outcome are endFrame's, and a failure stores its message |
| Pipelines.Pipeline.Cleanup | src/engine/vulkan/pipeline/Pipeline.cpp:120-216 | releases everything in the source's order (uniform buffers, descriptor pool and layout, vertex buffer and memory, semaphores and fences, command pools, framebuffers, pipeline, layout, render pass), empties every vector, nulls every member and returns to UNINITIALIZED |
| Pipelines.Pipeline.ReleaseFront | src/engine/vulkan/pipeline/Pipeline.cpp:124-172 | the releases of cleanup up to and including the synchronisation objects |
| Pipelines.Pipeline.ReleaseDescriptorsAndVertexBuffer | src/engine/vulkan/pipeline/Pipeline.cpp:141-159 | the descriptor pool and layout, vertex buffer and memory, each when not null |
| Pipelines.Pipeline.ReleaseBack | src/engine/vulkan/pipeline/Pipeline.cpp:175-205 | the releases of cleanup from the command pools on |
| Pipelines.Pipeline.ReleasePipelineObjects | src/engine/vulkan/pipeline/Pipeline.cpp:192-205 | the graphics pipeline, its layout and the render pass, each when not null |
| Pipelines.Pipeline.ReleaseUniforms | src/engine/vulkan/pipeline/Pipeline.cpp:125-135 | the uniform-buffer loop releases each entry in order |
| Pipelines.Pipeline.ReleaseUniform | src/engine/vulkan/pipeline/Pipeline.cpp:126-134 | one uniform buffer: unmapped if mapped, then the buffer and its memory destroyed when not null |
| Pipelines.Pipeline.ReleaseSyncObjects | src/engine/vulkan/pipeline/Pipeline.cpp:162-172 | the sync loop over both frame slots destroys each object the vectors hold |
| Pipelines.Pipeline.ReleaseSyncSlot | src/engine/vulkan/pipeline/Pipeline.cpp:163-171 | frame slot i's two semaphores and fence, each one the vectors hold, null or not |
| Pipelines.Pipeline.ReleaseNonNull | src/engine/vulkan/pipeline/Pipeline.cpp:175-189 | a loop over a handle vector destroys its non-null entries in order |
| Pipelines.Pipeline.ReleaseSlot | src/engine/vulkan/pipeline/Pipeline.cpp:141-159 | a single member is destroyed when not null |
| Pipelines.Pipeline.RecreateIfNeeded | src/engine/vulkan/pipeline/Pipeline.cpp:364-397 | true with nothing changed unless RECREATING; otherwise the framebuffers are released, then cleanup and initialize run and initialize's result is returned; the frame index is never reset |
| Pipelines.Pipeline.Recreate | src/engine/vulkan/pipeline/Pipeline.cpp:372-396 | the recreation proper: release, then the creation steps from nothing, READY exactly when all succeed |
| Pipelines.Pipeline.ReleaseForRecreate | src/engine/vulkan/pipeline/Pipeline.cpp:372-387 | the framebuffers are destroyed and cleared, then cleanup runs and leaves UNINITIALIZED with nothing held |
| Pipelines.RecreateReleasesLikeCleanup | src/engine/vulkan/pipeline/Pipeline.cpp:364-397 | recreateIfNeeded releases exactly what a plain cleanup would, each object once, only with the framebuffers moved to the front |
| Pipelines.MovedToFront | src/engine/vulkan/pipeline/Pipeline.cpp:375-387 | moving the framebuffer releases to the front keeps the multiset of releases |
| Pipelines.CleanupFrontIgnoresFramebuffers | src/engine/vulkan/pipeline/Pipeline.cpp:124-172 | what cleanup releases before the command pools does not depend on the framebuffers |
| Pipelines.UniformReleasesIgnoreFramebuffers | src/engine/vulkan/pipeline/Pipeline.cpp:125-135 | the uniform loop does not depend on the framebuffers |
| Pipelines.SyncReleasesIgnoreFramebuffers | src/engine/vulkan/pipeline/Pipeline.cpp:162-172 | the sync loop does not depend on the framebuffers |
| VulkanTypes.FindMemoryType | src/engine/vulkan/core/VulkanDevice.cpp:25-37 | the index returned is the smallest below memoryTypeCount whose bit is set in the filter and whose property flags include every requested flag; there is none (the exception) exactly when no index qualifies |
| VulkanTypes.ScanLengthFrom | src/engine/vulkan/core/VulkanContext.cpp:250-266 | the loop, resumed at family n, stops at some family between n and the end |
| VulkanTypes.ScanLength | src/engine/vulkan/core/VulkanContext.cpp:250-266 | the loop handles at most every family |
| VulkanTypes.ScanLengthFromIs | src/engine/vulkan/core/VulkanContext.cpp:263-265 | the loop stops at the first family after which both indices are known, or at the end |
| VulkanTypes.ScanLengthStops | src/engine/vulkan/core/VulkanContext.cpp:263-265 | the loop stops at a complete index or at the end, and at no earlier complete index |
| VulkanTypes.FindQueueFamilies | src/engine/vulkan/core/VulkanContext.cpp:250-266 | the imperative loop leaves the indices the scan specification gives |
| VulkanTypes.ScanStopsAt | src/engine/vulkan/core/VulkanContext.cpp:250-266 | where the loop stops, its result is the indices after that many families |
| VulkanTypes.LastGraphicsRecorded | src/engine/vulkan/core/VulkanContext.cpp:251-254 | the recorded graphics index is the last graphics family handled: a later one overwrites an earlier one |
| VulkanTypes.LastPresentRecorded | src/engine/vulkan/core/VulkanContext.cpp:256-261 | the recorded present index is the last present-capable family handled |
| VulkanTypes.ScanKeepsStart | src/engine/vulkan/core/VulkanContext.cpp:250-266 | the loop never clears an index: without a capable family the starting index stays |
| VulkanTypes.ScanRecordsCapable | src/engine/vulkan/core/VulkanContext.cpp:250-266 | starting from empty indices, a recorded index always names a capable family |
| VulkanTypes.FullScanComplete | src/engine/vulkan/core/VulkanContext.cpp:250-266 | once a graphics family and a present family exist, the indices end complete |
| VulkanTypes.QueueSearchComplete | src/engine/vulkan/core/VulkanContext.cpp:250-266 | from empty indices the search succeeds exactly when some family has graphics and some family can present, and each reported index names a capable family |
| VulkanTypes.UniqueFamilyCount | src/engine/vulkan/core/VulkanContext.cpp:270-283 | one queue create-info when graphics and present share a family, two otherwise |
| VulkanTypes.Attempted | src/engine/vulkan/pipeline/Pipeline.cpp:37-47 | a short-circuit chain runs no more steps than it has |
| VulkanTypes.AttemptedPrefix | src/engine/vulkan/pipeline/Pipeline.cpp:37-47 | the steps run are a prefix of the chain and all but the last of them succeeded |
| VulkanTypes.AttemptedStops | src/engine/vulkan/pipeline/Pipeline.cpp:37-48 | the chain runs every step exactly when every step succeeds; otherwise it ends at a failing step |
| VulkanTypes.AttemptedUpTo | src/engine/vulkan/pipeline/Pipeline.cpp:37-48 | a chain whose first i steps succeed and whose step i fails runs exactly steps 0 to i |
| VulkanTypes.AfterWait | src/engine/vulkan/pipeline/Pipeline.cpp:225 | a wait with an infinite timeout returns only for a signalled or pending fence, which it leaves signalled; it never returns for an unsignalled one |
| VulkanTypes.InitialSync | src/engine/vulkan/pipeline/Pipeline.cpp:701-724 | fences created signalled, one per frame slot, with nothing submitted |
| VulkanTypes.WaitFence | src/engine/vulkan/pipeline/Pipeline.cpp:225 | a returning wait leaves this slot's fence signalled, completes exactly the submissions it guarded, and touches no other slot |
| VulkanTypes.ResetFence | src/engine/vulkan/pipeline/Pipeline.cpp:246 | the reset leaves this slot's fence unsignalled, keeps the other fences and the submissions, and keeps every submission guarded when none used this slot |
| VulkanTypes.SubmitWith | src/engine/vulkan/pipeline/Pipeline.cpp:336 | a submit makes this slot's fence pending and records the command buffer as in flight under it |
| VulkanDevices.EndSingleTimeCommands | src/engine/vulkan/core/VulkanDevice.cpp:58-88 | true exactly when the fence is created and submit and wait succeed; the fence, once created, is destroyed exactly once; the command buffer is freed only on success (it leaks on every failure), after the fence |
| VulkanContexts.ScanDevices | src/engine/vulkan/core/VulkanContext.cpp:198-224 | the device chosen by the loop is the first one with every required extension that is a discrete GPU; there is none exactly when no device is both |
| VulkanContexts.ContextSteps | src/engine/vulkan/core/VulkanContext.cpp:24-61 | the bring-up chain starts with the instance and ends with the logical device, which occurs nowhere else; the messenger step is in it exactly when validation layers are enabled |
| VulkanContexts.CleanupCalls | src/engine/vulkan/core/VulkanContext.cpp:63-94 | at most four destroy calls, and none exactly when the device, the surface, the instance and (with validation) the messenger are all null |
| VulkanContexts.ContextChainStops | src/engine/vulkan/core/VulkanContext.cpp:24-61 | when step i fails after steps 0 to i-1 succeed, exactly steps 0 to i are run, initialization fails, and the whole chain ran exactly when the failing step is the logical device |
| VulkanContexts.VulkanContext.constructor | src/engine/vulkan/core/VulkanContext.cpp:8-17 | every handle starts null and no queue family is known |
| VulkanContexts.VulkanContext.PickPhysicalDevice | src/engine/vulkan/core/VulkanContext.cpp:181-236 | succeeds exactly when a device exists; picks the first discrete device with every extension; without one, keeps a device held from an earlier call, else takes the first device whatever its extensions; with no device it changes nothing |
| VulkanContexts.VulkanContext.CreateLogicalDevice | src/engine/vulkan/core/VulkanContext.cpp:238-322 | the context's indices become the queue-family search's result from their old value; it throws exactly when they are incomplete; otherwise one create-info per distinct family, and success exactly when the device is created, which is then held |
| VulkanContexts.VulkanContext.Initialize | src/engine/vulkan/core/VulkanContext.cpp:24-61 | the steps called are exactly the chain up to its first failure; true exactly when every step succeeds; it throws exactly when the chain reaches the logical device with incomplete queue families; nothing is destroyed |
| VulkanContexts.VulkanContext.RunChainStep | src/engine/vulkan/core/VulkanContext.cpp:24-61 | one more step of the chain: on success the steps run grow by that step; on failure the steps run are the whole short-circuit chain and initialization fails |
| VulkanContexts.VulkanContext.RunStep | src/engine/vulkan/core/VulkanContext.cpp:26-58 | one bring-up step is recorded; its result is whether that step succeeds; only the logical-device step can throw, exactly when the queue families are incomplete |
| VulkanContexts.VulkanContext.Cleanup | src/engine/vulkan/core/VulkanContext.cpp:63-94 | destroys the device, the surface, the messenger (with validation layers) and the instance, in that order, each only when not null, and nulls them; afterwards a second cleanup would destroy nothing |
| VulkanContexts.VulkanContext.ReleaseDeviceAndSurface | src/engine/vulkan/core/VulkanContext.cpp:66-76 | the device, then the surface, destroyed when not null, and both nulled |
| VulkanContexts.VulkanContext.ReleaseMessengerAndInstance | src/engine/vulkan/core/VulkanContext.cpp:78-91 | the messenger (with validation layers), then the instance, destroyed when not null, and nulled |
| VulkanContexts.QueueCreateFamilies | src/engine/vulkan/core/VulkanContext.cpp:270-283 | the families given a queue create-info are exactly the distinct members of the two indices, in strictly ascending order, and a single one exactly when graphics and present coincide |
| VulkanContexts.StaleIndicesSurvive | src/engine/vulkan/core/VulkanContext.cpp:250-266 | indices left complete by an earlier call stop the loop after the first family, so a stale graphics or present index survives unless that first family replaces it |
| SwapChains.ChooseSwapSurfaceFormat | src/engine/vulkan/core/SwapChain.cpp:157-169 | the format chosen is one of those offered: the preferred sRGB pair when it is offered, else the first |
| SwapChains.ChooseSwapPresentMode | src/engine/vulkan/core/SwapChain.cpp:171-182 | MAILBOX when offered, otherwise FIFO |
| SwapChains.Clamp | src/engine/vulkan/core/SwapChain.cpp:197-202 | with ordered bounds the result lies within them; a value inside is kept, one below gives the lower bound, one above the upper |
| SwapChains.ToWord | src/engine/vulkan/core/SwapChain.cpp:192-195 | the unsigned cast keeps a value in range and adds 2^32 to a negative one |
| SwapChains.ChooseSwapExtent | src/engine/vulkan/core/SwapChain.cpp:184-205 | the surface's own extent unless its width is UINT32_MAX; otherwise each axis lies within the surface's bounds when those are ordered, and equals the framebuffer size when that is within them |
| SwapChains.ChooseImageCount | src/engine/vulkan/core/SwapChain.cpp:43-46 | never above a non-zero maximum; one more than the minimum when that fits; never below the minimum when the minimum does not exceed the maximum |
| SwapChains.ImageCountWraps | src/engine/vulkan/core/SwapChain.cpp:43-46 | with a minimum of UINT32_MAX and no maximum the increment wraps and the count requested is 0 |
| SwapChains.ChooseSharingMode | src/engine/vulkan/core/SwapChain.cpp:62-74 | exclusive exactly when the two families coincide; concurrent exactly when both are set and differ, then over the two distinct families; an error (the bad optional access) otherwise |
| SwapChains.SwapchainCreateInfo | src/engine/vulkan/core/SwapChain.cpp:20-75 | built exactly when the sharing-mode choice succeeds, with the chosen image count, extent and sharing mode, an offered surface format that is the preferred one exactly when that is offered, and MAILBOX exactly when offered |
| SwapChains.SwapChain.constructor | src/engine/vulkan/core/SwapChain.cpp:9-13 | a null chain and no image views |
| SwapChains.SwapChain.Cleanup | src/engine/vulkan/core/SwapChain.cpp:109-127 | every image view destroyed in order, then the chain when not null; views cleared and the handle nulled |
| RendererSetup.ChoosePresentMode | src/engine/Renderer.cpp:674-694 | IMMEDIATE when offered, else MAILBOX when offered, else FIFO; the mode chosen is offered unless it is the FIFO default |
| RendererSetup.MaxWord | src/engine/Renderer.cpp:703-706 | the larger of the two unsigned values |
| RendererSetup.MinWord | src/engine/Renderer.cpp:703-706 | the smaller of the two unsigned values |
| RendererSetup.ChooseExtent | src/engine/Renderer.cpp:701-707 | the surface's own extent unless its width is UINT32_MAX; otherwise never below the minimum, never above an ordered maximum, 800x600 when that fits, and the minimum when the bounds are inverted |
| RendererSetup.ExtentRulesAgree | src/engine/Renderer.cpp:701-707 | with ordered bounds the Renderer's extent rule is the swap chain's clamp of an 800x600 framebuffer |
| RendererSetup.FindSupportedFormat | src/engine/Renderer.cpp:849-862 | the first candidate whose features under the tiling include those requested; none (the throw) exactly when no candidate qualifies |
| RendererSetup.FirstSupportedUnique | src/engine/Renderer.cpp:849-862 | the first supported candidate is unique, so the answer is determined |
| RendererSetup.FindDepthFormat | src/engine/Renderer.cpp:841-847 | D32_SFLOAT when it can be a depth-stencil attachment under optimal tiling, else D32_SFLOAT_S8_UINT, else D24_UNORM_S8_UINT, else none (the throw) |
| RendererSetup.IsDeviceSuitable | src/engine/Renderer.cpp:540-586 | true exactly when some family does graphics, some family can present, and the surface offers a format and a present mode |
| RendererSetup.PickPhysicalDevice | src/engine/Renderer.cpp:517-538 | an error with no devices; the first suitable device when there is one; with none, whatever the uninitialised member already held, an error only when that is null |
| RendererFrames.TickedCases | src/engine/Renderer.cpp:1304-1322 | a tick either records a sample and restarts the count, when a millisecond or more has passed, or counts one more frame |
| RendererFrames.TickedRateBounded | src/engine/Renderer.cpp:1308-1317 | a recorded sample adds one frame rate and one update rate; the frame rate is positive and at most a thousand times the frames counted |
| RendererFrames.CountCell | src/engine/Renderer.cpp:1337-1349 | one cell adds one solid voxel when solid, and the number of its solid in-chunk neighbours, at most six per solid voxel |
| RendererFrames.CountChunk | src/engine/Renderer.cpp:1334-1352 | a chunk adds its solid voxels and its culled faces over all 4096 cells |
| RendererFrames.CountRow | src/engine/Renderer.cpp:1336-1350 | one row of sixteen cells extends the running counts to the next row |
| RendererFrames.TableSumRemove | src/engine/Renderer.cpp:1332-1353 | any chunk can be summed first, so the hash map's iteration order does not change the statistics |
| RendererFrames.TableFacesSplit | src/engine/Renderer.cpp:1332-1353 | six faces per solid voxel over the world, each exposed or culled |
| RendererFrames.TableFloats | src/engine/Chunk.cpp:45-144 | in a valid chunk table the vertex data hold 54 floats for each exposed face |
| RendererFrames.StatisticsMatchWorldMesh | src/engine/Renderer.cpp:1324-1354 | the culled faces never exceed the potential faces, and the faces left are exactly those in the chunks' vertex data |
| RendererFrames.InitialDrawState | src/engine/Renderer.cpp:1140-1159 | after the sync objects are created, two signalled fences, frame 0, nothing submitted and no hazard |
| RendererFrames.DrawStepWith | src/engine/Renderer.cpp:211-405 | one draw keeps the fence invariant; the frame index advances, modulo two, exactly when the frame is drawn; it hangs exactly when this frame's fence can never be signalled; it resets an in-flight command buffer exactly when the buffer is still executing after the wait |
| RendererFrames.OutOfDateKeepsFence | src/engine/Renderer.cpp:216-219 | an out-of-date acquire returns before the reset: the fence stays signalled, the frame index stays, and the next draw cannot hang |
| RendererFrames.ThrowAfterResetHangs | src/engine/Renderer.cpp:224-379 | a begin, end or submit failure throws after the fence is reset, and the next draw then waits forever |
| RendererFrames.OnlyThrowAfterResetStrands | src/engine/Renderer.cpp:211-405 | from live fences a draw never hangs, and the fences stay live exactly unless begin, end or submit throws after the reset |
| RendererFrames.ImageReuseHazard | src/engine/Renderer.cpp:213-225 | two successful draws acquiring image 0: the second resets command buffer 0 while the first's submission of it is guarded by the other frame's fence |
| RendererFrames.FrameIndexedNoHazard | src/engine/Renderer.cpp:213-225 | with command buffers chosen by frame, each wait retires the buffer about to be reset, so no draw sequence resets a buffer in flight |
| RendererFrames.Renderer.constructor | src/engine/Renderer.cpp:1140-1159 | frame 0, both fences signalled, counters zero, no samples, the frame clock started |
| RendererFrames.Renderer.CalculateStatistics | src/engine/Renderer.cpp:1324-1354 | without a world nothing changes; otherwise the solid voxels and culled faces summed over every chunk, and six potential faces per solid voxel |
| RendererFrames.Renderer.UpdatePerformanceMetrics | src/engine/Renderer.cpp:1304-1322 | the frame clock ticks as TickedCases describes, and the memory samples are untouched |
| RendererFrames.Renderer.PrepareFrame | src/engine/Renderer.cpp:224-229 | after the reset, the clock ticks and the statistics are recomputed from the world |
| RendererFrames.Renderer.Draw | src/engine/Renderer.cpp:211-405 | the fences, frame index and outcome follow DrawStepWith on the acquired image's buffer; the clock ticks and the statistics are recomputed exactly when the image was acquired, and are otherwise unchanged |
| RendererFrames.Renderer.DrawFrame | src/engine/Renderer.cpp:211-405 | the fence, command-buffer and frame-index part of one draw |

## Left out

- Vulkan, GLFW and ImGui calls themselves (creating and destroying objects, recording commands, shaders, descriptor writes, uniform updates, `waitIdle`) are not modelled; only their answers are, as parameters, and their destroy calls as log entries.
- The creation steps of `Pipeline::initialize` (createRenderPass, createGraphicsPipeline, createFramebuffers, createCommandPools, createCommandBuffers, createSyncObjects, createUniformBuffers, createDescriptorSetLayout, createDescriptorPool, createDescriptorSets, createVertexBuffer) are each one success-or-failure answer; objects a step creates before failing inside itself are not tracked.
- Pipelines.FreshCleanupDestroysGarbage, Pipelines.InitializedCleanupDestroysGarbage, Pipelines.Pipeline.constructor and FRESH_RESOURCES: the declarations of `descriptorPool`, `descriptorSetLayout`, `vertexBuffer` and `vertexBufferMemory` that Pipeline.cpp uses are not part of this model, since src/engine/vulkan/pipeline/Pipeline.h:12-60 is an older interface that declares none of them. The model assumes they carry no default member initialiser, because the constructor at src/engine/vulkan/pipeline/Pipeline.cpp:12-24 does not set them. Were they declared `= VK_NULL_HANDLE`, the fresh state would be NO_RESOURCES in those four members, and SecondCleanupReleasesNothing shows its cleanup then destroys nothing.
- VulkanContexts.VulkanContext.ReleaseMessengerAndInstance: `vkDestroyDebugUtilsMessengerEXT` is looked up with `vkGetInstanceProcAddr` and called only when the lookup is non-null (src/engine/vulkan/core/VulkanContext.cpp:80-83); the model records the destroy whenever validation layers are on and the messenger is not null, so its log holds the destroy even where the extension function is missing.
- Pipelines.Pipeline.Initialize: the shader files are taken to be readable. When `readFile` cannot open one, it sets "Failed to open file: …" and goes on with empty code; what Vulkan then answers for the shader module is not modelled, and neither is that message surviving a later success.
- `VulkanContext::createInstance`, `setupDebugMessenger` and `createSurface` are each one answer; the validation-layer and extension checks inside them are not modelled.
- `SwapChain::querySwapChainSupport` and `createImageViews`, and the `vkCreateSwapchainKHR` call of `SwapChain::initialize`, are not modelled; `SwapchainCreateInfo` stops at the create-info.
- `VulkanDevice::beginSingleTimeCommands`, `waitIdle` and `createCommandPool` are plain Vulkan calls with no decision in them and are not modelled.
- SwapChains.Clamp: `std::clamp` is undefined when hi < lo; the model evaluates libstdc++'s expression there (lo when v < lo, else hi when hi < v), which is why `v < lo ==> r == lo` holds unguarded. Vulkan reports minImageExtent no larger than maxImageExtent, so the callers never reach that case.
- SwapChains.ChooseSwapSurfaceFormat: requires a non-empty list, because indexing an empty vector is undefined behaviour in the source; `querySwapChainSupport` can return an empty list, and what happens then is not modelled.
- SwapChains.SwapchainCreateInfo: requires a non-empty format list for the same reason.
- `Renderer::init`, `cleanup`, `recordCommandBuffer`, the single-time command helpers, the creation functions other than the choices modelled in RendererSetup, `createVertexBuffer`, `updateVertexBuffer`, `updateWorldMesh`, `getVertices` and `getVertexMemoryMB` are Vulkan or ImGui plumbing and are not modelled.
- RendererFrames.Renderer.Draw: the command recording between the reset and the submit (render pass, pipeline binding, the ImGui panels) is not modelled; only its begin, end and submit answers are.
- Pipelines.Pipeline.EndFrame: the commands recorded before `vkEndCommandBuffer` are not modelled; only the answers are.
- The octree `World`'s `prepareFrame`, `render`, `update`, debug visualisation, `createComputePipeline`, `findComputeQueueFamily`, `createBuffer`, `copyBuffer`, `getMemoryUsage`, `getNodeCount` and `calculateMemoryUsage` are GPU plumbing or byte accounting and are not modelled; in `World::cleanup` the compute-pipeline handles are not modelled.
- The mesh built by `generateMeshForNode` is an answer given to the model (`MeshBuild`); only whether it succeeded and the table entry it leaves are modelled.
- The float level-of-detail computation of `updateLOD` and the float camera distance that orders the mesh queue are oracles (`lod`, `key`); the model proves what holds for every oracle.
- Octree.NewLeaf: the `OctreeNode` constructor placement-constructs the `internal` member of its payload union (src/engine/voxel/VoxelTypes.h:179-196); findNode and initialize then set `isLeaf` (src/engine/voxel/World.cpp:39, 254, 284) and later code reads and writes `nodeData.leaf.data`, a member that was never constructed, which is undefined behaviour, and the destructor then destroys a LeafData that was never built. The model reads this as an empty LeafData (no data, no runs), which is what the layouts of the two empty vectors give in practice.
- Octree nodes are identified by their path from the root, so pointer identity and aliasing of nodes are not modelled.
- OctreeWorld.World.SubdivideNode: a leaf whose data holds between one and seven words is outside the node invariant, because every operation of the source leaves 0 or 8 words; subdividing one would read past the vector.
- VoxelTypes.LeafData.CompressData: only the run in which the vector does not reallocate while it is iterated is modelled; a reallocation there is undefined behaviour.
- Floating point is modelled as exact real arithmetic (frame rates, averages, colours, vertex data, input values); rounding is not modelled.
- Unsigned counters (`totalVoxels`, `frameCount`, node counts, run counts) are unbounded naturals; their 32- or 64-bit wrap-around is not modelled.
- ChunkWorld.World.GetVoxel: requires coordinates of at least INT_MIN + 15, because `c - CHUNK_SIZE + 1` in `worldToChunkPos` overflows below that.
- ChunkWorld.World.SetVoxel: the same bound on coordinates.
- Chunks.Chunk.GetVoxel: the mutable reference the source returns to a shared static default voxel is not modelled; the model returns the default by value, so writes through that reference are not captured.
- ChunkWorld.World.GetVoxel: likewise returns the default voxel by value for an absent chunk, not the shared mutable static.
- `InputSystem::initialize` only registers window callbacks and `getKeyName` only asks GLFW; neither is modelled. Callbacks are identifiers and their invocations a log; a callback that calls back into the input system is not modelled.
- Input.UpperCase: covers `toupper` in the C locale only; other locales are not modelled.
- Input.KeyFromName: a one-byte name at or above 128 reaches `toupper` as a negative `char` (x86-64), which the C standard leaves undefined except for EOF; the model returns the value unchanged, as glibc's C-locale table does.
- Window mouse buttons other than left, right and middle are one constructor, `Other`.
- `PerformanceMetrics` is defined both inline in Renderer.h and in PerformanceMetrics.cpp; the two definitions agree and are modelled once.
- The older interface in src/engine/vulkan/pipeline/Pipeline.h is not part of this model; the behaviour modelled is that of Pipeline.cpp.
- WorldRenderer, MeshGenerator, Camera, Engine, Logger, Window and VulkanBuffer are callers or plumbing and are not part of this model.
- Pipelines.Pipeline.BeginFrame: a failed `vkBeginCommandBuffer` returns after the fence reset and strands that fence (`Pipelines.BeginFailureStrandsFence`); the model states this behaviour as written and has no corrected variant.
- RendererFrames.Renderer.Draw: a begin, end or submit failure after the fence reset makes the next draw wait forever (`RendererFrames.ThrowAfterResetHangs`); stated as written, with no corrected variant.

## Findings

| source | as written | input that shows it | evidently intended | confidence | as-written member | corrected member |
|---|---|---|---|---|---|---|
| src/engine/voxel/VoxelTypes.h:73-85 | `compressData` rebuilds the runs with `addVoxel`, which also pushes every voxel onto the `data` vector being iterated | a leaf with one data word, no runs and a total of 1: afterwards it holds two data words while its total stays 1 | encode the existing data into runs and leave the data as it was | not executed | VoxelTypes.CompressDoublesData, VoxelTypes.LeafData.CompressData | VoxelTypes.LeafData.CompressDataCorrected |
| src/engine/Renderer.cpp:213-225 | `draw` waits on the fence of `currentFrame` but resets and re-records `commandBuffers[imageIndex]` | two successful draws from the initial state that both acquire image 0: the second resets command buffer 0 while the first submission of it is guarded only by the other frame's fence | index command buffers by frame, as Pipeline.cpp does, so that the wait retires the buffer about to be reset | not executed | RendererFrames.ImageReuseHazard | RendererFrames.FrameIndexedNoHazard |
