# The fugue lifter, verified

A Dafny model of the lifter runtime of fugue: how instruction bytes are decoded into a tree of
constructors, how handles and p-code are produced from it, the context database the decoder
reads and writes, the tables the generator emits for it, and the bit-vector library. `dafny verify
dfyconfig.toml` checks the whole project.

The model keeps the form of the code. What the code updates in place is a class with `modifies`
clauses and loops; each such method is proved against a specification, and what the code is for is
proved about the specification.

**Decoding** (`Grammar`, `DecodeMachine`, `DecodePath`, `DecodeWalk`, `DecodeTree`,
`DecodeTheorems`, `DecodeActions`, `DecodeCheck`, `DecodeExtents`). `DecodeWalk.ParserInput` is the parser input with its 256 nodes, breadcrumbs, point,
depth and allocation mark. Its loop over an explicit stack is proved equal to a recursive decode of
the memory, and that decode to be the layout of a tree that is built without any memory. From this
follow termination for every grammar, independence of what earlier decodes left behind, the
invariants of the node array, and when the root length covers every node. `DecodeExtents` computes
offsets and lengths without a bound and says when the stored ones are those. `DecodeCheck` says which
tree is found, by a checker that is given one, and `DecodeActions` what context actions do to the words.

**Handles** (`HandleTemplates`, `HandleMeaning`, `HandleSpec`, `HandleWalk`). The second walk visits every
node once in post-order; the handles it leaves are those of a bottom-up evaluation of the tree, and
`HandleMeaning` says field by field what a template exports. Handles that an
earlier decode left in the array are carried in the model and proved invisible.

**Context** (`PartMap`, `PartEdits`, `ContextRegions`, `ContextCache`, `ContextDatabase`, `ContextFields`,
`ContextFlow`, `FlowMasks`). A partition map from addresses to context words, the two kinds of write over it, a
direct-mapped cache with its occupancy bitmap in front, flow propagation, and the flow masks the
generator computes. Over every run of commands the cached database answers as the plain map does, and
what is set by name is what is read.

**Emission** (`PCode`, `Emission`, `EmissionIssue`, `EmissionProofs`, `EmissionResolve`, `EmissionLabels`,
`EmissionBuilder`). Templates expand into
nested builds and delay slots. `Emission.Code` says what a template means without any label table:
a branch is the distance to the place where its own instance put the label. The builder renames
labels, records branches by index, spills inputs and patches branches afterwards; it is proved to
issue that code exactly when every label named was placed, for branches within reach. Reading the operations with their spilled arguments is the inverse of laying them out.

**Delay slots** (`DelaySlots`). The lifting loop over a decoder given as a function, and the query that
finds the slots again; the slots found are those that were decoded and emitted with the instruction.

**Fields and expressions** (`ByteOrder`, `TokenFields`, `PatternExpressions`, `ExpressionLaws`, `PatternTrails`). Token
reads at the level of bits, and the postfix stack machine over the parser input with its scratch
node. What the machine answers in any state of the decode walk is a function of the path to the node,
which is what the decode takes filters and context actions to be.

**Generated tables** (`DecisionTrees`, `DecisionMeaning`, `LifterGenerator`, `LanguageTables`). Two passes number and
emit decision trees and constructors; the flat lookup is the recursive lookup on the source trees, so
decoding with the tables is decoding with the trees. A lookup in a tree that sorts a list of patterns
finds the first of them that the input satisfies.

**Bit vectors** (`Modular`, `BitVecSpec`, `BitVec`, `BitVecBytes`). Both representations, in place,
against arithmetic modulo 2^n.

`Prelude` and `Bits` (with `Words`) hold the shared vocabulary: options, fixed-width integers, and
bitwise operations on natural numbers defined bit by bit.

## What the code does not do

- A raw context write changes only masked bits if and only if its value has no bit outside the mask:
  the code does not mask it (`ContextRegions.EditConfined`; `EditStrays` is such a write).
- A region write of a variable records the unshifted mask of its field (context.rs:713, 735), a
  variable write the shifted one (context.rs:567). The two are the same if and only if the field is
  the lowest of its word (`ContextRegions.RegionMaskExact`), and a later change-point write runs over
  the region if and only if the field is no wider than its distance from the bottom of the word
  (`ChangePointRunsOver`; `TopBitIsRunOver` is such a field).
- Emission succeeds even if a branch names a label that was never placed; that branch and all later
  ones stay unresolved. Within reach, all are resolved if and only if every label was placed
  (`EmissionLabels.OutcomeExact`).
- A branch is recorded by the low byte of its index. A loop over n operations is emitted as meant if
  and only if n is below 256 (`EmissionLabels.LoopResolves`; `FarBranchLost` is the smallest loop that
  is not).
- The Euclidean remainder is wrong for some operands that are not both signed
  (`BitVecSpecs.RemEuclidExact` gives the exact condition for each combination of flags,
  `RemEuclidUnsignedExample` inputs).
- An operand inside the expression of an operand wipes the scratch node that the outer expression
  may still read. Trees in which it does not are evaluated correctly
  (`PatternExpressions.ResolvesToValue`); where it does, the answer is right if and only if the field
  reads the same at offset zero (`NestedExactly`; `NestedOperandFails` is an input).
- Offsets are wrapped into a space in signed arithmetic, which gives the remainder if and only if the
  offset is positive as a signed number or the size of the space divides 2^64, apart from offsets that
  need no wrapping and the first past the space (`HandleTemplates.WrapOffsetExactly`; `WrapsElsewhere`
  is an input).
- Offsets and lengths are kept in eight bits. They are the declared ones, and the root length covers
  every declared end, if and only if the declared length of the whole is below 256
  (`DecodeExtents.RootCoversDeclared`; `WrappedExtents` has inputs).

## Model

| member | source | states |
|---|---|---|
| DecodeMachine.EnterShape | fugue-lifter-runtime/src/constructor.rs:88-103 | Entering a constructor keeps every invariant of the node array: parents precede children, operand blocks are contiguous and disjoint, the new block is blank and lies at the old end, nothing else changes |
| DecodeMachine.AllocateKeepsShape | fugue-lifter-runtime/src/input.rs:610-652 | Reserving a block of operands keeps those invariants |
| DecodeMachine.DescendEnters | fugue-lifter-runtime/src/constructor.rs:124-140 | Descending at a subtable operand is decoding that operand and then going on with the next, on an unchanged parent |
| DecodePath.PathAdvance | fugue-lifter-runtime/src/input.rs:658-685 | Moving past an operand keeps the path from the root spelled by the breadcrumbs |
| DecodePath.PathPop | fugue-lifter-runtime/src/input.rs:676-685 | Leaving a finished node leads back onto the path of its parent |
| DecodePath.UnwindPlain | fugue-lifter-runtime/src/constructor.rs:109-141 | One plain operand of the loop keeps what the walk still has to deliver and lowers the work left |
| DecodePath.PushSubtable | fugue-lifter-runtime/src/constructor.rs:124-136 | Entering a subtable keeps what the walk still has to deliver and lowers the work left, also for a table that refers to itself |
| DecodeWalk.ParserInput.Initialise | fugue-lifter-runtime/src/input.rs:267-278 | A reused input has a blank root, one allocated slot and every other node left over |
| DecodeWalk.ParserInput.ApplyContextActions | fugue-lifter-runtime/src/constructor.rs:51-73 | The context actions run in order on the words and commits, stopping at the first failure, and leave the nodes alone; DecodeActions says what each does bit by bit |
| DecodeWalk.ParserInput.AllocateOperandsAt | fugue-lifter-runtime/src/input.rs:610-652 | Allocation fails exactly when 256 slots or the nesting would be exceeded; otherwise it clears all but the handles of a contiguous block |
| DecodeWalk.ParserInput.PushOperand | fugue-lifter-runtime/src/input.rs:658-670 | Pushing records the next operand, goes to its slot and starts a new breadcrumb |
| DecodeWalk.ParserInput.PopOperand | fugue-lifter-runtime/src/input.rs:676-685 | Popping goes to the parent, or to the invalid marker at the root |
| DecodeWalk.ParserInput.CalculateLength | fugue-lifter-runtime/src/input.rs:493-514 | The loop stores the furthest end of the constructor and its operands, relative to the offset, in eight bits |
| DecodeWalk.ParserInput.VisitOperands | fugue-lifter-runtime/src/constructor.rs:105-141 | A pass of the inner loop keeps the walk invariant and never raises the work left; entering a subtable lowers it |
| DecodeWalk.ParserInput.ResolveOperands | fugue-lifter-runtime/src/constructor.rs:80-155 | The explicit-stack walk terminates for every grammar and succeeds exactly when the recursive decode of the memory does, with the same nodes, allocation, context words, commits and delay request; the walk ends at the invalid marker with depth -1 |
| DecodeTree.ConstructorAgrees | fugue-lifter-runtime/src/constructor.rs:80-155 | The recursive decode of the memory lays out exactly the tree that a decode without memory builds, or both fail |
| DecodeTree.AllOperandsAgree | fugue-lifter-runtime/src/constructor.rs:105-151 | The same for the remaining operands of a node |
| DecodeTheorems.RootAgrees | fugue-lifter-runtime/src/constructor.rs:80-155 | For any contents left in the array, the memory decode of the root and the tree decode succeed alike and agree |
| DecodeTheorems.ResolveInstruction | fugue-lifter-runtime/src/language.rs:150-159 | Decoding in a reused input succeeds exactly when the tree decode does, and then the array holds its tree, with its context words, commits and delay request; DecodesExactly says which tree that is, and DecodeActions what its words are |
| DecodeTheorems.HistoryIndependent | fugue-lifter-runtime/src/input.rs:267-278 | Two inputs with different left-overs decode to the same tree, context words and delay request, or both fail |
| DecodeActions.OperatorBits | fugue-lifter-runtime/src/context.rs:30-46 | A context action stores its value, moved up by its shift, in exactly the masked bits of one word; every other bit, word and commit stays, and it fails exactly when its expression does |
| DecodeActions.CommitRecords | fugue-lifter-runtime/src/context.rs:70-74 | A commit leaves the words alone and appends the action, the node and the masked bits of its word |
| DecodeActions.ActionsInOrder | fugue-lifter-runtime/src/constructor.rs:51-73 | The actions of a constructor run from the first to the last, each on what the ones before it left |
| DecodeActions.FlatEffects | fugue-lifter-runtime/src/constructor.rs:51-155 | A constructor that enters no other leaves the words and commits of its own actions |
| DecodeActions.OneOperator | fugue-lifter-runtime/src/constructor.rs:51-155 | After decoding an instruction with one such action, its word has the stored bits and every other word is as before |
| DecodeActions.TopNibble | fugue-lifter-runtime/src/input.rs:576-580 | The value 1 with shift 28 under the mask 0xf0000000 makes 0x10000000 of an empty word |
| DecodeCheck.DecodesExactly | fugue-lifter-runtime/src/constructor.rs:80-155 | Decoding an instruction finds a tree if and only if the tree passes a checker that goes over it once: every subtable node has the constructor that the lookup at its offset under the words at that point selects, every leaf passes its filter, slots, offsets and lengths are as reserved, actions and delay requests add up; it fails exactly when no tree passes |
| DecodeTheorems.DecodeGenuine | fugue-lifter-runtime/src/input.rs:610-652 | In every decoded tree operands and constructors match, lengths are computed from the children, slots are handed out block by block without gaps, and as many slots are taken as there are nodes |
| DecodeTheorems.NoWrap | fugue-lifter-runtime/src/input.rs:493-514 | In terms of stored ends: the length of a constructor whose furthest stored end fits a byte is computed without losing bits |
| DecodeTheorems.RootCovers | fugue-lifter-runtime/src/input.rs:493-514 | In terms of stored ends: the root length covers the stored end of every node if and only if no stored end lies past byte 255 |
| DecodeExtents.DeclaredNests | fugue-lifter-runtime/src/input.rs:493-514 | Computed without a bound, no node ends after the node it belongs to |
| DecodeExtents.StoredExactly | fugue-lifter-runtime/src/input.rs:493-514 | A decoded tree has exactly the offsets and lengths computed without a bound if and only if the length of the whole, so computed, fits a byte |
| DecodeExtents.RootCoversDeclared | fugue-lifter-runtime/src/input.rs:493-514 | For every decoded instruction: the stored root length covers the declared end of every node, and all offsets and lengths are the declared ones, each if and only if the declared length of the whole is below 256 |
| DecodeExtents.OneOperandCovered | fugue-lifter-runtime/src/input.rs:493-514 | For an instruction with one plain operand that condition is that its offset plus its length is below 256 |
| DecodeExtents.WrappedExtents | fugue-lifter-runtime/src/input.rs:493-514 | An operand of one byte declared at 300 is stored at 44, and one of 100 bytes at 200 leaves a root length of 44: neither is covered |
| PatternTrails.TrailDecides | fugue-lifter-runtime/src/pattern.rs:193-501 | The value of an expression whose operand references are relative depends on nothing in the node array but the constructors and offsets on the path from its node to the root, however operands are nested |
| PatternTrails.MachineReadsTrail | fugue-lifter-runtime/src/pattern.rs:140-501 | So does what the stack machine answers, for expressions it gets right |
| PatternTrails.OnPathRooted | fugue-lifter-runtime/src/input.rs:658-685 | In every state of the decode walk the path to the current node is as long as its depth and stays among the allocated nodes |
| PatternTrails.AcceptsExactly | fugue-lifter-runtime/src/operand/mod.rs:30-48 | An operand is let through exactly if its signed value is a sixteen-bit index below the limit and not one left out |
| PatternTrails.FilterReadsMemory | fugue-lifter-runtime/src/operand/mod.rs:22-48 | In every state of the walk, the filter as a function of the path is what the machine computes in the slot of the operand |
| PatternTrails.ActionReadsMemory | fugue-lifter-runtime/src/context.rs:30-46 | The same for a context action of a constructor entered in a slot |
| LanguageTables.SameLookups | fugue-lifter-codegen/src/core.rs:774-815 | A lookup of a subtable in the generated tables finds the constructor that its decision tree selects, at every offset and context |
| LanguageTables.TablesDecodeAlike | fugue-lifter-codegen/src/core.rs:167-245 | Decoding any instruction with the generated tables gives the same tree, context and commits as decoding with the decision trees they came from, or both fail |
| HandleTemplates.WrapOffsetInRange | fugue-lifter-runtime/src/lib.rs:111-119 | A wrapped offset is in range for every upper bound |
| HandleTemplates.WrapOffsetSigned | fugue-lifter-runtime/src/lib.rs:111-119 | In a space below 2^63 offsets, wrapping is the remainder of the signed reading |
| HandleTemplates.WrapOffsetExactly | fugue-lifter-runtime/src/lib.rs:111-119 | Wrapping is the remainder if and only if the offset needs none, is the first past the space, is positive when read with a sign, or the number of offsets divides 2^64 |
| HandleTemplates.WrapOffsetIsRemainder | fugue-lifter-runtime/src/lib.rs:111-119 | So where the size of the space divides 2^64, wrapping is the remainder for every offset |
| HandleTemplates.WrapsElsewhere | fugue-lifter-runtime/src/lib.rs:111-119 | The last 64-bit offset wraps to 9 in a space of ten, where the remainder is 5 |
| HandleTemplates.BuildAlike | fugue-lifter-runtime/src/template.rs:401-454 | A result template cannot tell apart operand handles that agree in what is visible of them |
| HandleMeaning.MeansExact | fugue-lifter-runtime/src/template.rs:76-262 | Each part of a template has exactly one value, if any: a constant, an address, a space, or the place, size, or moved offset of an operand, where a piece of a constant is taken by dropping bytes |
| HandleMeaning.NamesExact | fugue-lifter-runtime/src/template.rs:76-262 | An operand names the space its value lies in |
| HandleMeaning.DynamicExport | fugue-lifter-runtime/src/template.rs:424-452 | A pointer into a space exports a dynamic handle: space, size, pointer and temporary, each where the template says |
| HandleMeaning.ConstantPointerExport | fugue-lifter-runtime/src/template.rs:436-442 | A pointer in the constant space exports a direct handle at the pointer counted in words, wrapped into the space |
| HandleMeaning.OperandPointerExport | fugue-lifter-runtime/src/template.rs:424-452 | Where the pointer is an operand, the exported pointer lies where the value of that operand lies |
| HandleMeaning.MemoryOperand | fugue-lifter-runtime/src/template.rs:424-452 | Four bytes of space 2 through the pointer at 0x10 of space 3, loaded to 0x100 of space 1 |
| HandleMeaning.OperandExport | fugue-lifter-runtime/src/template.rs:408-422 | Without a pointer, an offset that is an operand passes its location through |
| HandleMeaning.SameExport | fugue-lifter-runtime/src/template.rs:408-422 | A constructor that exports its operand exports it unchanged |
| HandleMeaning.ConstantExport | fugue-lifter-runtime/src/template.rs:408-422 | Any other offset is a constant, wrapped into the space |
| HandleMeaning.BuildsExactly | fugue-lifter-runtime/src/template.rs:398-455 | A handle is built exactly if every part that is needed can be read |
| HandleMeaning.LeafLies | fugue-lifter-runtime/src/constructor.rs:180-200 | The handle of an expression operand is the constant the expression gives |
| HandleMeaning.ExportsBuilt | fugue-lifter-runtime/src/constructor.rs:161-216 | In the evaluation of a tree every constructor exports what its template builds from the handles of its operands, in order, so the above holds of every node |
| HandleSpec.PostOrderOnce | fugue-lifter-runtime/src/constructor.rs:161-216 | Post-order visits every allocated slot exactly once and no other |
| HandleSpec.FillFrames | fugue-lifter-runtime/src/constructor.rs:161-216 | Filling in handles changes nothing but handles, and only in the slots still to be visited: shape, offsets and lengths stay |
| HandleSpec.FillEval | fugue-lifter-runtime/src/constructor.rs:161-216 | Filling fails exactly when the bottom-up evaluation of the tree fails; otherwise every exporting operand holds the evaluated handle, whatever was there before |
| HandleSpec.ExportAgrees | fugue-lifter-runtime/src/template.rs:401-454 | A handle exported from operand handles that look right looks right |
| HandleWalk.StoreHandle | fugue-lifter-runtime/src/constructor.rs:180-200 | The handle of a plain operand: a symbol handle whole, an expression over what was left there |
| HandleWalk.ExportHandle | fugue-lifter-runtime/src/constructor.rs:206-209 | A finished node stores the handle of its result template, or none; HandleMeaning says what that handle is |
| HandleWalk.VisitKids | fugue-lifter-runtime/src/constructor.rs:169-204 | A pass over the operands of a node keeps the walk on the tree and makes progress |
| HandleWalk.ResolveHandles | fugue-lifter-runtime/src/constructor.rs:161-216 | The second walk terminates, visits the nodes in post-order and leaves exactly the memory of the recursive fill, or fails exactly when it fails |
| HandleWalk.ResolveState | fugue-lifter-runtime/src/language.rs:162-173 | Decode and handle walk together: they succeed exactly when tree decode and evaluation do; every allocated node was visited once, the tree is still laid out and every exporting operand holds the evaluated handle; HandleMeaning says what the evaluated handles are |
| HandleWalk.LeftoversInvisible | fugue-lifter-runtime/src/input.rs:618-631 | Handles left by earlier decodes never show in an exporting operand |
| PartMaps.SplitKeepsLookup | fugue-lifter-runtime/src/partmap.rs:149-169 | Splitting never changes the function a partition map represents |
| PartMaps.ClearedLookup | fugue-lifter-runtime/src/partmap.rs:87-109 | Clearing a range makes it uniform and changes nothing outside |
| PartMaps.WriteLookup | fugue-lifter-runtime/src/partmap.rs:87-109 | A write through the value handed back rewrites exactly the interval of its key |
| PartMaps.PartMap.GetOrDefault | fugue-lifter-runtime/src/partmap.rs:111-117 | The value at the greatest key at or below the point, or the default |
| PartMaps.PartMap.Bounds | fugue-lifter-runtime/src/partmap.rs:68-81 | The interval around a point: its ends are keys, it holds the point, and every address in it reads the same |
| PartMaps.PartMap.Split | fugue-lifter-runtime/src/partmap.rs:149-169 | After a split in place the map is the split map and every address reads as before |
| PartMaps.PartMap.ClearRange | fugue-lifter-runtime/src/partmap.rs:87-109 | After clearing in place, addresses in the range read what its start read, all others as before |
| PartEdits.EditFromLookup | fugue-lifter-runtime/src/context.rs:753-783 | A walk that edits up to the first halting key edits exactly the addresses before it |
| PartEdits.EditRangeLookup | fugue-lifter-runtime/src/context.rs:786-811 | A walk over a range edits exactly the addresses of the range |
| PartEdits.StopPasses | fugue-lifter-runtime/src/context.rs:766-772 | A walk with nothing to halt it in between passes a key exactly if that key does not halt it |
| PartEdits.EditUntilHalt | fugue-lifter-runtime/src/context.rs:753-783 | The loop with early stop leaves the map so edited |
| PartEdits.EditBetween | fugue-lifter-runtime/src/context.rs:786-811 | The loop over a range leaves the map so edited |
| ContextRegions.FieldReadsBack | fugue-lifter-runtime/src/context.rs:205-215 | A field write reads back as the value under the field mask |
| ContextRegions.FieldInside | fugue-lifter-runtime/src/context.rs:210-215 | A field write sets only bits of its field |
| ContextRegions.EditConfined | fugue-lifter-runtime/src/context.rs:676-697 | A raw masked write changes exactly the masked bits of every word if and only if its value lies inside the mask |
| ContextRegions.InsideTest | fugue-lifter-runtime/src/context.rs:676-697 | That condition is what masking the value with the complement tests |
| ContextRegions.EditStrays | fugue-lifter-runtime/src/context.rs:676-697 | The mask 0x0f with the value 0xf0 sets a bit outside the mask |
| ContextRegions.RegionMaskExact | fugue-lifter-runtime/src/context.rs:700-739 | The mask a region write records is the mask the field occupies if and only if the field is the lowest of its word |
| ContextRegions.RegionMaskOverlaps | fugue-lifter-runtime/src/context.rs:700-739 | The recorded mask shares a bit with the field if and only if the field is wider than its distance from the bottom of its word |
| ContextRegions.RegionStops | fugue-lifter-runtime/src/context.rs:700-772 | Where no other record is, a region write of a field stops a later change-point write of it if and only if the field is wider than its distance from the bottom |
| ContextRegions.ChangePointRunsOver | fugue-lifter-runtime/src/context.rs:700-783 | A change-point write from below the region runs over its start if and only if the field is no wider than that distance |
| ContextRegions.TopBitIsRunOver | fugue-lifter-runtime/src/context.rs:700-783 | The top bit, set on [16, 32) and then cleared at 0, reads as cleared at 16 |
| ContextRegions.ChangePointExact | fugue-lifter-runtime/src/context.rs:753-783 | A change-point write edits one word on exactly the addresses from its own up to the stop; all others read as before |
| ContextRegions.ChangeStopIsFirst | fugue-lifter-runtime/src/context.rs:766-772 | The stop is the first later key whose recorded mask overlaps |
| ContextRegions.ChangePointRecords | fugue-lifter-runtime/src/context.rs:773-780 | The record at the address gains exactly the mask, and no other key changes its record |
| ContextRegions.RegionExact | fugue-lifter-runtime/src/context.rs:786-811 | A region write edits one word on exactly the region |
| ContextCaches.DropLowest | fugue-lifter-runtime/src/context.rs:424-434 | Clearing the lowest set bit of an occupancy word moves on past it and touches no other bit |
| ContextCaches.ContextCache.Entry | fugue-lifter-runtime/src/context.rs:394-405 | A hit means the slot is occupied by exactly this address; otherwise the slot is claimed for it |
| ContextCaches.ContextCache.Clear | fugue-lifter-runtime/src/context.rs:424-434 | Walking the bitmap word by word, bit by bit, frees every slot |
| ContextCaches.ContextCache.ClearWord | fugue-lifter-runtime/src/context.rs:424-434 | Taking the lowest set bit until none is left frees every slot of the word, each exactly where the bitmap says |
| ContextDatabases.StepConsistent | fugue-lifter-runtime/src/context.rs:535-750 | Every command keeps all word lists at the size of the context |
| ContextDatabases.ContextDatabase.GetVariableByBits | fugue-lifter-runtime/src/context.rs:551-562 | A cached read is the uncached read, whether the slot is free, stale, colliding or current, for every address |
| ContextDatabases.ContextDatabase.ChangeFrom | fugue-lifter-runtime/src/context.rs:564-595 | A change-point write goes through to the partition map and leaves no stale slot |
| ContextDatabases.ContextDatabase.ChangeBetween | fugue-lifter-runtime/src/context.rs:685-739 | So does a region write |
| ContextDatabases.ContextDatabase.SetVariableByBits | fugue-lifter-runtime/src/context.rs:577-595 | A write that would change nothing is skipped; any other is a change-point write |
| ContextDatabases.ContextDatabase.SetVariableDefaultByBits | fugue-lifter-runtime/src/context.rs:607-612 | A default write changes the default and leaves no stale slot |
| ContextDatabases.ContextDatabase.Register | fugue-lifter-runtime/src/context.rs:614-640 | Registration fails once anything is mapped or when the field crosses a word; otherwise the defaults grow to hold it; ContextFields says which bits the variable has and that it holds what is set |
| ContextDatabases.ContextDatabase.GetContextBounds | fugue-lifter-runtime/src/context.rs:663-674 | The context of an address and an interval on which every address reads it; the address lies in it unless it is past the limit with no key behind |
| ContextDatabases.ContextDatabase.Perform | fugue-lifter-runtime/src/context.rs:535-750 | Any command answers and acts as on the database without a cache |
| ContextFields.RegisteredBits | fugue-lifter-runtime/src/context.rs:160-216 | Writing a registered variable clears exactly its bits, counted from the most significant of its word |
| ContextFields.RegisteredIsVariable | fugue-lifter-codegen/src/core.rs:247-276 | Those are the bits for which the generator computes the flow |
| ContextFields.RegisteredReads | fugue-lifter-runtime/src/context.rs:205-209 | Reading it gives exactly those bits, the last one lowest |
| ContextFields.RegisteredHolds | fugue-lifter-runtime/src/context.rs:160-216 | A variable of n bits holds every number below 2^n |
| ContextFields.SetReads | fugue-lifter-runtime/src/context.rs:564-575 | A write by name is read on exactly the addresses up to its stop; other addresses, and variables without a common bit, read as before |
| ContextFields.RegionReads | fugue-lifter-runtime/src/context.rs:699-720 | A region write by name is read on exactly the region, with the same frame |
| ContextFields.DefaultReads | fugue-lifter-runtime/src/context.rs:597-612 | A default that was set is read wherever there is no key at or below the address, with the same frame |
| ContextFields.DefaultRecords | fugue-lifter-runtime/src/context.rs:607-612 | The default records exactly the bits of the variable |
| ContextFields.RegisterKeeps | fugue-lifter-runtime/src/context.rs:614-640 | A registration leaves the values of all other variables |
| ContextFields.Registers | fugue-lifter-runtime/src/context.rs:614-640 | It succeeds exactly while nothing is mapped, for bits of one word, and then the variable has its bits |
| ContextFields.RegisterSetGet | fugue-lifter-runtime/src/context.rs:535-640 | Over the runs register, set (by default or at an address), get: what was set is answered, for every variable, value and address |
| ContextFields.ModeHoldsFive | fugue-lifter-runtime/src/context.rs:614-640 | Bits 4 to 7 hold 5 |
| ContextFields.SetIsKept | fugue-lifter-runtime/src/context.rs:564-575 | A variable set at an address keeps its value there when it is set again at a lower one |
| ContextFields.SetBitsReads | fugue-lifter-runtime/src/context.rs:577-595 | A write of a range is read back, whether or not it was skipped |
| ContextFields.RawPointReads | fugue-lifter-runtime/src/context.rs:676-683 | A raw write at an address changes one word as value and mask say, and no lower address |
| ContextFields.RawRegionReads | fugue-lifter-runtime/src/context.rs:685-697 | A raw region write does so on exactly the region |
| ContextFields.RangeReads | fugue-lifter-runtime/src/context.rs:722-739 | A region write of a range is read on exactly the region |
| ContextFields.ClearedReads | fugue-lifter-runtime/src/context.rs:741-750 | After a clear every address reads the default |
| ContextDatabases.PerformAll | fugue-lifter-runtime/src/context.rs:384-750 | Over every run of commands the cached database gives the answers and ends in the state of the uncached one |
| ContextFlow.ChangePointAt | fugue-lifter-runtime/src/context.rs:646-661 | The context at an address, with the explicitly set bits only if there is a key of its own |
| ContextFlow.SetContextFromFlow | fugue-lifter-runtime/src/pcode.rs:186-197 | The loop does the flow of each word, from views taken before the first write |
| ContextFlow.FlowReachesTarget | fugue-lifter-runtime/src/pcode.rs:186-197 | At the target exactly the flowing bits not set explicitly there become the bits of the source; every other bit stays |
| ContextFlow.FlowElsewhere | fugue-lifter-runtime/src/pcode.rs:186-197 | Below the target nothing changes; above it a bit changes only if it flows, and only to the bit of the source |
| ContextFlow.FlowKeepsSource | fugue-lifter-runtime/src/pcode.rs:186-197 | The source keeps its whole context, also where the write spreads over it |
| ContextFlow.FlowIdempotent | fugue-lifter-runtime/src/pcode.rs:186-197 | Propagating the same flow again changes nothing, not even a record |
| ContextFlow.FlowRecords | fugue-lifter-runtime/src/pcode.rs:186-197 | The record at the target gains exactly the flowing bits of the words in which a flowing bit was not yet that of the source |
| FlowMasks.FlowMaskOf | fugue-lifter-codegen/src/core.rs:247-276 | The generated flow masks have a word for every context variable, and a bit is clear exactly when a variable that does not flow covers it |
| PCode.TakeFirst | fugue-lifter-runtime/src/pcode.rs:1213-1239 | The first operation with all its inputs, or none if an announced argument operation is missing |
| PCode.ReadOps | fugue-lifter-runtime/src/pcode.rs:1213-1239 | The loop reads a whole list this way, and fails exactly when some announced argument is missing |
| PCode.PackedPush | fugue-lifter-runtime/src/pcode.rs:567-585 | One more input fills the last pair or opens a new one |
| PCode.ReadsBackExactly | fugue-lifter-runtime/src/pcode.rs:1140-1146 | An operation laid out alone reads back exactly when its inputs are valid and it announces as many arguments as they need |
| PCode.SpillRoundTrip | fugue-lifter-runtime/src/pcode.rs:588-611 | Reading any list of such operations gives every operation back with all its inputs in order, loads in between included |
| PCode.LayoutInjective | fugue-lifter-runtime/src/pcode.rs:588-611 | The layout is never ambiguous |
| EmissionIssue.IssueLayout | fugue-lifter-runtime/src/template.rs:343-378 | Index by index: directly before an operation, for each dynamic input in order, a load from its pointer to where the operation reads the input; the operation with its output and all inputs in order; then, for a dynamic output, a store through the pointer of what the operation put there; and nothing else |
| EmissionIssue.StoredOutput | fugue-lifter-runtime/src/template.rs:605-609 | Such a store: the pointer first, the value second |
| EmissionProofs.InstancesApart | fugue-lifter-runtime/src/template.rs:38-47 | All instances of one emission, nested ones and delay slots included, take label ranges one after the other |
| EmissionProofs.TilesApart | fugue-lifter-runtime/src/template.rs:38-47 | Ranges taken that way are pairwise disjoint |
| EmissionProofs.OwnLabel | fugue-lifter-runtime/src/template.rs:289-296 | The table entry of a label is where its own instance placed it last, whatever was built in between |
| EmissionProofs.PartKept | fugue-lifter-runtime/src/template.rs:38-47 | What nested instances placed is never overwritten |
| EmissionProofs.EmitMeans | fugue-lifter-runtime/src/template.rs:32-51 | Whatever table keeps the labels of an instance, the operations issued for it resolve to the code it means, in which every branch goes where its own instance placed the label |
| EmissionResolve.PatchAllKeeps | fugue-lifter-runtime/src/pcode.rs:614-638 | The pass touches no operation outside the recorded indices, also where two records coincide |
| EmissionResolve.PatchAllDistinct | fugue-lifter-runtime/src/pcode.rs:614-638 | Where the records differ it succeeds exactly if every recorded branch names a label of the table, and then patches all of them at once |
| EmissionLabels.EmitNames | fugue-lifter-runtime/src/pcode.rs:614-638 | The branches of an instance and of all it builds find their labels in the table if and only if each names a label its own instance placed |
| EmissionLabels.OutcomeExact | fugue-lifter-runtime/src/pcode.rs:614-638 | For branches among the first 256 operations, naming labels of their instance: all are resolved if and only if every label named was placed, and then the operations are the code that is meant |
| EmissionLabels.PlacedResolves | fugue-lifter-runtime/src/pcode.rs:614-638 | Within reach, placed labels suffice |
| EmissionLabels.LoopResolves | fugue-lifter-runtime/src/template.rs:343-378 | A loop over n operations is emitted as meant if and only if n is below 256; otherwise the pass still reports success and the branch keeps the number of its label |
| EmissionLabels.FarBranchLost | fugue-lifter-runtime/src/template.rs:359-362 | The loop over 256 operations is the smallest such input |
| PCode.CountsRoundTrip | fugue-lifter-runtime/src/pcode.rs:588-611 | Operations that carry the number of their inputs, or have at most two, are read back from their layout |
| EmissionBuilder.MaskedDistance | fugue-lifter-runtime/src/pcode.rs:630-634 | Subtracting with wrap-around and masking is subtracting modulo the size |
| EmissionBuilder.Builder.PushInput | fugue-lifter-runtime/src/pcode.rs:567-585 | The pending pair and the spilled pairs are always the packing of the inputs pushed |
| EmissionBuilder.Builder.BuildInput | fugue-lifter-runtime/src/template.rs:567-588 | A dynamic input issues its load first and leaves the pending inputs alone |
| EmissionBuilder.Builder.DumpAction | fugue-lifter-runtime/src/template.rs:343-378 | An operation is issued with its loads, its spilled inputs and its store; a relative one has its label renamed and is recorded, each at the index that IssueLayout says |
| EmissionBuilder.Builder.BuildTpl | fugue-lifter-runtime/src/template.rs:32-51 | An instance takes the next labels, issues its operations and gives the base back; it fails exactly when some location is undefined or delay slots are missing |
| EmissionBuilder.Builder.BuildSlots | fugue-lifter-runtime/src/pcode.rs:448-472 | The delay slots are built in order; there must be some |
| EmissionBuilder.Builder.ResolveRelatives | fugue-lifter-runtime/src/pcode.rs:614-638 | Whatever was recorded, also the same index twice, the branches are patched one after the other on what the earlier patches left, up to the first that names a label that was not placed; PatchAllKeeps and PatchAllDistinct say what that comes to |
| EmissionBuilder.BuiltResolves | fugue-lifter-runtime/src/pcode.rs:614-638 | Whatever the templates, the pass over what was built has the outcome that OutcomeExact and LoopResolves speak of |
| EmissionBuilder.Builder.EmitInstruction | fugue-lifter-runtime/src/pcode.rs:423-441 | From a clean builder a successful emission leaves a clean builder. For branches within reach: they are all resolved if and only if every label named was placed, then exactly the code that is meant is issued, and reading it back with its spilled inputs gives that code |
| DelaySlots.CoveringUnique | fugue-lifter-runtime/src/input.rs:155-174 | At most one run of slots in front of a list covers a length |
| DelaySlots.LiftingState.DelaySlots | fugue-lifter-runtime/src/input.rs:155-174 | The query answers the shortest contiguous run that covers the declared length, or nothing if there is none |
| DelaySlots.LiftingState.LiftAt | fugue-lifter-runtime/src/entry.rs:224-288 | The loop terminates and returns the size, inputs and database that the specification of lifting gives, failing in exactly its error cases: too few inputs or bytes, an undecodable or empty slot, a slot that asks for slots |
| DelaySlots.SlotsCover | fugue-lifter-runtime/src/entry.rs:249-283 | The loop ends with the shortest contiguous run, decoded from the bytes that follow |
| DelaySlots.LiftCovers | fugue-lifter-runtime/src/entry.rs:224-288 | After a successful lift the query answers exactly the slots of this lift; the size is the distance to the next address and fits the bytes given |
| DelaySlots.LiftEmits | fugue-lifter-runtime/src/entry.rs:224-288 | What was lifted was lifted by the slots that the query answers: the shortest contiguous covering run, decoded one after the other, each in the first free input and under what the one before it left, none asking for slots; the instruction was emitted with exactly these, and database and inputs are what that left |
| DelaySlots.LiftsExactly | fugue-lifter-runtime/src/entry.rs:224-288 | Lifting has a result if and only if there are such slots for it, within the bytes given; it fails exactly when there are none |
| DecisionMeaning.SatisfiedExactly | fugue-lifter-runtime/src/resolve.rs:66-134 | A pattern matches exactly if what it asks of the context holds of the context and what it asks of the instruction of the instruction, bit by bit |
| DecisionMeaning.FirstExactly | fugue-lifter-runtime/src/resolve.rs:56-63 | A list of patterns gives the constructor of the first that is satisfied, and none exactly if none is |
| DecisionMeaning.LookupIsFirst | fugue-lifter-runtime/src/resolve.rs:37-64 | In a tree that sorts a list of patterns, the lookup gives the first pattern of the list that is satisfied, for every input that reaches a leaf, and nothing for any other |
| DecisionTrees.MatchPattern | fugue-lifter-runtime/src/resolve.rs:109-133 | A pattern matches always, never, or when every word under its mask does; a read past the end fails |
| DecisionTrees.Resolve | fugue-lifter-runtime/src/resolve.rs:39-71 | The lookup loop terminates and is the recursive flat lookup |
| DecisionTrees.FlatDescends | fugue-lifter-codegen/src/core.rs:774-803 | Every child is emitted below its parent |
| DecisionTrees.FlatLookupAgrees | fugue-lifter-codegen/src/core.rs:774-803 | Wherever a tree is emitted, the flat lookup from its root gives the constructor that the recursive lookup on the tree gives |
| LifterGenerators.Tables.AssignIds | fugue-lifter-codegen/src/core.rs:170-196 | The first pass gives each subtable the position of its root and numbers the constructors in order |
| LifterGenerators.Tables.GenerateTree | fugue-lifter-codegen/src/core.rs:774-803 | Emission pushes the children and then the node, returns the position of the node, and fails exactly when it does not fit sixteen bits |
| LifterGenerators.Tables.GenerateConstructors | fugue-lifter-codegen/src/core.rs:457-511 | The constructors of a subtable are pushed at the ids the first pass gave them |
| LifterGenerators.Tables.Build | fugue-lifter-codegen/src/core.rs:167-245 | Generation succeeds exactly when nodes and constructors fit sixteen-bit ids, and then the tables are those of the symbols in order |
| LifterGenerators.TablesMeanTrees | fugue-lifter-codegen/src/core.rs:167-245 | From the id of the first pass the flat lookup finds the table entry of exactly the constructor the source tree gives |
| TokenFields.InstructionBytes | fugue-lifter-runtime/src/input.rs:361-382 | The bytes of the buffer at an offset, as far as they go, the most significant first |
| TokenFields.ReadToken | fugue-lifter-runtime/src/pattern.rs:202-224 | The loop reads four bytes at a time and then the rest, failing when a chunk starts past the buffer |
| TokenFields.ReadFits | fugue-lifter-runtime/src/pattern.rs:202-224 | A token within the buffer is read completely |
| TokenFields.ReadPastEnd | fugue-lifter-runtime/src/input.rs:371-380 | Up to four bytes that reach past the buffer: the read fails only if it starts past the end, and otherwise has the bytes that are there, moved down |
| TokenFields.ByteSwap | fugue-lifter-runtime/src/lib.rs:97-108 | The loop swaps byte by byte, shifting the sign in above; SwapReverses says what that yields |
| TokenFields.SwapReverses | fugue-lifter-runtime/src/lib.rs:97-108 | Swapping up to eight bytes reverses them, also when a sign is shifted in above them |
| TokenFields.BitAtSignExtend | fugue-lifter-runtime/src/lib.rs:72-84 | Sign extension copies the sign bit upwards |
| TokenFields.BitAtZeroExtend | fugue-lifter-runtime/src/lib.rs:87-94 | Zero extension clears the bits above the field |
| TokenFields.FieldIsDeclared | fugue-lifter-runtime/src/pattern.rs:193-253 | A field within the buffer is the declared bits of its token in the byte order of the token, sign- or zero-extended |
| PatternExpressions.PostfixComputesValue | fugue-lifter-runtime/src/pattern.rs:152-501 | For every quiet tree (in the expression of an operand nothing looks at the node after an operand of its own was evaluated), its postfix layout pushes the 64-bit value of the tree on any stack, reads nothing below, keeps all allocated nodes, and fails exactly when the tree has no value |
| PatternExpressions.ResolvesToValue | fugue-lifter-runtime/src/pattern.rs:140-146 | Resolving the layout of a quiet tree from an empty stack gives its value, or fails with it, and keeps every node but the scratch node |
| PatternExpressions.OneLevelIsQuiet | fugue-lifter-runtime/src/pattern.rs:308-425 | Trees in which the expressions of operands name no operands are quiet |
| PatternExpressions.NestedExactly | fugue-lifter-runtime/src/pattern.rs:389-425 | Where the expression of an operand adds a field to an operand of its own, the machine gives the value of the tree if and only if the field reads the same at offset zero as at the offset of the outer operand |
| PatternExpressions.NestedOperandFails | fugue-lifter-runtime/src/pattern.rs:389-425 | An instruction and a tree for which it does not |
| ExpressionLaws.PlusCarries | fugue-lifter-runtime/src/pattern.rs:454-458 | Plus is the sum, less 2^64 where that is reached |
| ExpressionLaws.SubUndoesPlus | fugue-lifter-runtime/src/pattern.rs:459-463 | Sub takes away what Plus added, and Plus puts back what Sub took |
| ExpressionLaws.MinusCancels | fugue-lifter-runtime/src/pattern.rs:492-495 | Minus is what cancels under Plus |
| ExpressionLaws.MultIsSigned | fugue-lifter-runtime/src/pattern.rs:469-473 | Mult is the residue of the product of the signed readings |
| ExpressionLaws.BitwiseBits | fugue-lifter-runtime/src/pattern.rs:439-453 | And, Or and Xor act bit by bit |
| ExpressionLaws.NotComplements | fugue-lifter-runtime/src/pattern.rs:488-491 | Not complements every bit |
| ExpressionLaws.LeftShiftBits | fugue-lifter-runtime/src/pattern.rs:474-478 | LeftShift, by the low eight bits of the amount, moves bits up; from 64 on nothing is left |
| ExpressionLaws.RightShiftDivides | fugue-lifter-runtime/src/pattern.rs:479-487 | RightShift divides the signed value by a power of two, rounding down; from 64 on the sign is left |
| ExpressionLaws.DivTruncates | fugue-lifter-runtime/src/pattern.rs:464-468 | Div fails exactly at zero and is otherwise the truncated quotient of the signed readings, which wraps for the smallest value by -1 alone |
| ExpressionLaws.MachineApplies | fugue-lifter-runtime/src/pattern.rs:439-487 | The machine on two constants and an operator answers the operator on them, left operand first |
| ExpressionLaws.MachineReads | fugue-lifter-runtime/src/pattern.rs:193-307 | The machine on a single operation: fields are read at the offset of the node, addresses and constants are themselves |
| ExpressionLaws.OperandStarts | fugue-lifter-runtime/src/pattern.rs:313-380 | For an operand of a decoded tree that encloses the node: by relative offset it starts behind its constructor, by index where that operand starts |
| PatternExpressions.FindOrigin | fugue-lifter-runtime/src/pattern.rs:313-380 | The search for the enclosing constructor, and the offset and length it gives |
| PatternExpressions.Resolve | fugue-lifter-runtime/src/pattern.rs:152-501 | The loop runs the stack machine; on success point, depth, breadcrumbs and allocation are as before; ExpressionLaws says what the operators compute |
| PatternExpressions.ResolveOperand | fugue-lifter-runtime/src/pattern.rs:308-425 | An operand is evaluated on the scratch node, which is wiped, and the walk goes back |
| Modular.SignedRange | fugue-bv/src/lib.rs:463-475 | The signed reading is in range and stands for the same residue |
| Modular.SignedWrap | fugue-bv/src/lib.rs:463-475 | A value in range survives wrapping and reading back |
| Modular.TruncatingDivision | fugue-bv/src/lib.rs:748-824 | Truncating division: the equation, a remainder below the divisor, the sign of the dividend |
| BitVecSpecs.SignedDivision | fugue-bv/src/lib.rs:748-824 | For every width and nonzero divisor, minimum by minus one included: a = q*b + r modulo 2^n, |r| < |b|, and r has the sign of the dividend |
| BitVecSpecs.SignedCarryFlag | fugue-bv/src/lib.rs:588-600 | The sign test of the sum holds exactly when the signed sum is out of range |
| BitVecSpecs.SignedBorrowFlag | fugue-bv/src/lib.rs:565-577 | The sign test of the difference holds exactly when the signed difference is out of range |
| BitVecSpecs.CarryFlag | fugue-bv/src/lib.rs:579-586 | The unsigned sum is out of range exactly when its residue is below an operand |
| BitVecSpecs.SignFill | fugue-bv/src/lib.rs:706-734 | Shifting right and or-ing the fill in rounds the signed value down |
| BitVecSpecs.RemEuclidSigned | fugue-bv/src/lib.rs:602-612 | With both operands signed the result lies in [0, |b|) and differs from the dividend by a multiple of the divisor |
| BitVecSpecs.RemEuclidUnsigned | fugue-bv/src/lib.rs:602-612 | With both unsigned it is the remainder if and only if the top bit of the remainder is clear |
| BitVecSpecs.EuclideanDivision | fugue-bv/src/lib.rs:602-612 | The Euclidean remainder: in [0, |b|) and congruent to the dividend |
| BitVecSpecs.RemEuclidExact | fugue-bv/src/lib.rs:602-612 | For all four combinations of flags, what the code returns is the Euclidean remainder of the values the flags stand for if and only if the truncated remainder is below 2^(n-1) where it is not negative, and where it is, the divisor is flagged signed or at most 2^(n-1) |
| BitVecSpecs.RemEuclidUnsignedExample | fugue-bv/src/lib.rs:602-612 | At eight bits 200 and 201 give 255, not 200; with mixed flags 54, not 200 |
| BitVecSpecs.WideningKeepsValue | fugue-bv/src/lib.rs:640-673 | Widening keeps the signed or unsigned value |
| BitVecSpecs.NarrowingKeepsResidue | fugue-bv/src/lib.rs:640-673 | Narrowing keeps the residue |
| BitVecSpecs.WidenThenNarrow | fugue-bv/src/lib.rs:640-673 | Widening and narrowing back is the identity |
| BitVecs.BitVec.FromSmall | fugue-bv/src/lib.rs:108-116 | A word is masked to its width |
| BitVecs.BitVec.FromLarge | fugue-bv/src/lib.rs:118-126 | A natural is reduced to its width |
| BitVecs.BitVec.SetSmall | fugue-bv/src/lib.rs:305-308 | A word set in place is masked to the width |
| BitVecs.BitVec.TopBitIsSign | fugue-bv/src/lib.rs:322-328 | The bit read at the top of either representation is the sign of the residue |
| BitVecs.BitVec.AddAssign | fugue-bv/src/lib.rs:1111-1121 | Both representations add modulo 2^n |
| BitVecs.BitVec.SubAssign | fugue-bv/src/lib.rs:1123-1138 | Both subtract modulo 2^n |
| BitVecs.BitVec.MulAssign | fugue-bv/src/lib.rs:1140-1150 | Both multiply modulo 2^n |
| BitVecs.BitVec.NegAssign | fugue-bv/src/lib.rs:826-837 | Both negate modulo 2^n |
| BitVecs.BitVec.NotAssign | fugue-bv/src/lib.rs:839-848 | Both complement: -1 - a modulo 2^n |
| BitVecs.BitVec.ShlBy | fugue-bv/src/lib.rs:1220-1231 | Both shift left modulo 2^n, amounts at or above the width included |
| BitVecs.BitVec.ShrBy | fugue-bv/src/lib.rs:706-734 | Both shift right, rounding the signed or unsigned value down, amounts at or above the width included |
| BitVecs.BitVec.ShlAssign | fugue-bv/src/lib.rs:1203-1209 | A vector as amount, also one that no 32-bit number holds |
| BitVecs.BitVec.ShrAssign | fugue-bv/src/lib.rs:1211-1217 | A right shift by a vector, arithmetic if the value is flagged signed |
| BitVecs.BitVec.SignedShrAssign | fugue-bv/src/lib.rs:742-746 | A right shift by a vector that is always arithmetic |
| BitVecs.BitVec.DivAssignWith | fugue-bv/src/lib.rs:764-781 | Dividing magnitudes and negating gives the truncated quotient of the values the flags stand for |
| BitVecs.BitVec.RemAssignWith | fugue-bv/src/lib.rs:783-798 | The same for the remainder |
| BitVecs.BitVec.SignedDivAssign | fugue-bv/src/lib.rs:806-811 | The truncated quotient of the signed values |
| BitVecs.BitVec.SignedRemAssign | fugue-bv/src/lib.rs:819-824 | The remainder with the sign of the dividend |
| BitVecs.BitVec.DivAssign | fugue-bv/src/lib.rs:1152-1159 | The quotient of the values as flagged |
| BitVecs.BitVec.RemAssign | fugue-bv/src/lib.rs:1161-1168 | The remainder of the values as flagged, with the sign of the dividend |
| BitVecs.BitVec.RemainderEuclid | fugue-bv/src/lib.rs:602-612 | What the Euclidean remainder returns, for all flags |
| BitVecs.BitVec.SignedCarry | fugue-bv/src/lib.rs:588-600 | The flag holds exactly when the signed sum is out of range |
| BitVecs.BitVec.SignedBorrow | fugue-bv/src/lib.rs:565-577 | The flag holds exactly when the signed difference is out of range |
| BitVecs.BitVec.Carry | fugue-bv/src/lib.rs:579-586 | Out of range for the signed sum if either operand is signed, for the unsigned sum otherwise |
| BitVecs.BitVec.SignedCompare | fugue-bv/src/lib.rs:680-695 | The order of the signed values |
| BitVecs.BitVec.Cast | fugue-bv/src/lib.rs:640-673 | Across representations, the residue of the flagged value in the new width |
| BitVecBytes.FromBeBytes | fugue-bv/src/lib.rs:191-203 | The number the bytes spell, most significant first, reduced to the width |
| BitVecBytes.FromLeBytes | fugue-bv/src/lib.rs:209-221 | The number the bytes spell, least significant first, reduced to the width |
| BitVecBytes.ToBeBytes | fugue-bv/src/lib.rs:858-868 | The buffer is filled with the value, most significant byte first |
| BitVecBytes.ToLeBytes | fugue-bv/src/lib.rs:870-880 | The buffer is filled with the value, least significant byte first |
| BitVecBytes.ValueRoundTrip | fugue-bv/src/lib.rs:858-880 | Every value of every width reads back from its bytes, in either order |
| BitVecBytes.BytesRoundTripExactly | fugue-bv/src/lib.rs:187-221 | Bytes come back if and only if they spell a number within the width |
| BitVecBytes.WholeBytesRoundTrip | fugue-bv/src/lib.rs:187-221 | A width that fills its bytes loses nothing |
| ByteOrders.SpellingsReverse | fugue-bv/src/lib.rs:858-880 | The two encodings are reverses of each other |

## Left out

- DecodeWalk.ParserInput.AllocateOperandsAt: the depth is an integer here as in the walk; see the next line.
- DecodeWalk.ParserInput.ResolveOperands: the nesting depth is an integer, because the limit of 128 the code compares against cannot be reached by its eight-bit depth; the two agree for nesting up to 127.
- DecodeWalk.ParserInput.ApplyContextActions: the list of commits has no capacity, and applying commits to the context database after the decode is not modelled.
- DecodeTheorems.ResolveInstruction: table lookup, operand filters and action expressions are functions of the fixed instruction bytes, the path and the context words. PatternTrails and LanguageTables justify this for expressions with relative operand references; one that names an operand by index reads the offset of that operand, which the path does not have. The scratch node is not written during the decode of the model, and what `inst_next2` reads of other inputs is a constant of the instruction.
- DecodeTheorems.HistoryIndependent: the same limits.
- DecodeTheorems.NoWrap: speaks of stored offsets and ends; DecodeExtents has the declared ones.
- DecodeTheorems.RootCovers: speaks of stored ends; DecodeExtents.RootCoversDeclared has the declared ones.
- HandleWalk.ResolveState: operands whose symbol is itself an operand are not modelled, and a template that names a space where the code has `unreachable!` fails instead.
- ContextDatabases.ContextDatabase.Register: a field that crosses a word is refused; the overflow that a debug build reports before that is not modelled.
- ContextDatabases.ContextDatabase.Perform: tracked sets, `variable_mut`, and the cache operations `update` and `invalidate`, which the database does not use, are not modelled.
- EmissionBuilder.Builder.EmitInstruction: cross-build templates are unimplemented in the code; templates are given with the locations and pointers of their operands already computed, so moving the parser input while building is not modelled, nor is the order in which a failing location is found. Opcodes other than loads, stores, user operations and arguments are not told apart. Nothing is claimed of a builder after a failed emission, which the code leaves as it is.
- DelaySlots.LiftCovers: decoding and emission are functions that may change later inputs and the database; lifting without a spare input and the recording of the unique offset are not modelled.
- DecisionMeaning.LookupIsFirst: that the trees of a specification sort its patterns is up to the compiler that made them.
- DecisionTrees.Resolve: reading bits and bytes of instruction and context is a function of the input.
- TokenFields.FieldIsDeclared: a token that reaches past the sixteen bytes of the buffer has no declared bits there; TokenFields.ReadPastEnd says what the code reads then, for up to four bytes.
- PatternExpressions.PostfixComputesValue: trees that are not quiet are run by the machine but give their value only in some cases, as shown for one family. Context fields are a function of the field. The bit ranges that are returned for display are not computed. An operand reference past the node array fails instead of panicking.
- LifterGenerators.Tables.Build: symbols other than subtables, operand filters, and the code text of constructors are not modelled; a missing constructor id, which would panic, is excluded.
- BitVecs.BitVec.Cast: the packed width-and-sign word, gcd and lcm, text, hashing and serialisation are not modelled; operands of different width, which panic, are excluded.
- Integer overflow that panics in a debug build wraps, as in a release build.
- Formatting of instructions, mnemonics and operands: output plumbing.
- XML and packed-SLA parsing, conventions, processors and compiler specifications: field copying.
- Token-stream generation and the type adaptors of the generator: text.
- The IDA proxy, Python bindings, packager, patcher, build scripts and benchmarks: I/O and wrappers.
