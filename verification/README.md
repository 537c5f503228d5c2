# Verification of ANGLE's build and test tooling

A Dafny model of the hard core of ANGLE's scripts and of its test utility library, with proofs.
`dafny verify dfyconfig.toml` covers the whole project.  The modules are independent of each other
except where one imports another.

- `Precedence`, `GnAst`, `CMakeWriter`: the converter from GN build files to CMake is a compiler.
  `CMakeArguments`, `CMakeConditions` and `CMakeMachine` give its output a meaning, the way CMake cuts,
  expands and evaluates it.  `GniStore`, `GniConditions`, `GniLists` and `GniToCMake` prove that the
  output computes what the GN program computes; `GniConditionLimits` and `GniLimits` say exactly when
  it does not.
- `CodeGeneration`, `CodeGenerationRuns`, `CodeGenerationSound`, `CodeGenerationSettles`: the runner of the
  code generators, its hash store, and what a passing verification says about the generated files when
  the scripts may list other files in every run; and that repeated runs make it pass.
  `CodeGenerationLost` holds the histories after which it passes on outputs that are out of date.
- `BlueprintDeps`, `BlueprintMerge`, `BlueprintFlags`, `BlueprintModules`: the Android blueprint
  generator: memoised dependency lists that are edited in place, merging of four ABIs, and hoisting of
  common flags out of modules that inherit from each other.
- `EntryPointLocks`: the locks and tail calls of generated EGL entry points, over all interleavings.
- `ParamNames`, `ParamSplits`, `CaptureTypes`, on `Substrings` and `Whitespace`: splitting C parameters,
  and the names of captured parameter types.
- `Matrices`, `MatrixStore`: 4x4 matrices over exact real numbers, and the object that stores one.
- `DagTraverse`, `ExportTargets`, on `StringOrder` and `Sorting`: flattening the target graph.
- `EglContextAttributes`, `EglWindow`: context attributes, and the life of display, surface and context.
- `CommandRegistry`, `RegistryXml`: the registry of API commands.
- `EnumTables`: the generated enum tables.
- `SphereGeometry`: the sphere mesh.
- `CommitMessages`: the commit message checks.
- `Prelude`: an option type and the set of a list.

## What the proofs found

- A GN assignment whose right-hand side is not a list is written as an assignment of nothing, an append
  whose right-hand side is not a list is never closed, a variable among the items of a list is written
  as its name, the empty list plus a variable in front of a list is looked up twice, and an `if` with an
  empty first block loses its `else` block (`AssignKeptIff`, `AppendKeptIff`, `BareVariableKeptIff`,
  `NestedReferenceKeptIff`, `EmptyThenKeptIff`).
- `!=` and the order comparisons are not renamed and are written without blanks, so CMake takes the whole
  test for the name of a variable; a negation of a negation is refused; dropped parentheses regroup a
  condition; a reference in a comparison is looked up twice (`UnequalKeptIff`, `EvaluableIff`,
  `NegatedAndKeptIff`, `GroupedOrKeptIff`, `ReferenceKeptIff`; for every condition `ConditionKeptIff`).
- A source that leaves the lists of a generator, such as a deleted shader, is not noticed when the generator
  is verified by name, and a full run forgets it without running the generator, after which the full
  verification passes on the outputs made from it (`NamedVerifyMisses`, `FullVerifyMisses`,
  `FullRunForgets`; exactly when it can happen: `EntrySoundIff`, `SourcesKeptExact`).
- A module that has only flags of an ABI, and inherits no `cflags`, loses the flags common to that ABI
  (`KeepsFlagsIff`, `LoneLibraryLoses`, `LostFlag`).
- A void command on sync objects would not hold the lock of what it touches (`GuardedIff`).
- `invert` returns the identity for a singular matrix, so inverting reverses a product only under the
  condition in `InverseMulIff`.
- The name of a parameter is lost if its array type has a size (`SizedArrayLost`), and what was split
  from a parameter with the size in front of its name does not come back (`SizedParameterLost`, and
  `SizedExample` for the parameter `x[3] y`).
- `const T **` and `const T *const *` share a capture name (`NamesShared`).
- The name generated for an enum value need not lead back to it: the table of names gives the least value
  listed for a name, and it lists `GL_ACTIVE_PROGRAM_EXT` with both 0x8259 and 0x8B8D.  A value is lost
  this way only where the two-valued name is the shortest of its names in a group, as in `TwoValuesLost`;
  in the checked-in tables 0x8B8D is named `GL_CURRENT_PROGRAM`, so none is.  Values over 32 bits
  pass the filter of the groups, whose bound has nine digits, but not that table (`NamesLeadBack`, `OneValueLeadsBack`, `TwoValuesLost`).
- From 362 slices on, the 16-bit indices of the sphere run along some edges twice, and along some edges on
  the border both ways (`MeshOnce`, `MeshClosed`, `PairRepeated`, `BorderRepeated`).
- The presubmit check builds an error for a missing blank line before the tags and drops it, so the
  grammar in `CleanIff` allows the line to be missing although the message asks for it.

## Conventions

- What the environment decides is a parameter: file contents and generator products, EGL answers and
  extensions, the paragraphs and lines of a description, parsed XML, and whether includes are in order.
- Python exceptions and failed assertions are `None`, an error value or a result that says so.
- Python dictionaries are maps, iterated in any order where the result does not depend on it, and sorted
  where the source sorts.  Characters are classified as ASCII.
- A callback of the graph traversal is a function on the state it closes over; the loop inside the
  flattening callback is the method `AbsorbFields`.
- Integers are unbounded where nothing depends on their width; the 16-bit indices, the 32-bit enum
  values and their bounds are explicit.

## Model

| member | source | states |
|---|---|---|
| `Precedence.ParseStep` | gni-to-cmake.py:252-267 | with an operand expected, reading the printed form of a parenthesis-free tree puts exactly that tree on the stack, whatever follows |
| `Precedence.OperandSound` | gni-to-cmake.py:252-267 | whatever the parser accepts while it waits for an operand is parenthesis-free and has exactly the tokens read |
| `Precedence.OperatorSound` | gni-to-cmake.py:252-267 | the same while it holds an operand |
| `Precedence.ParseIffParenFree` | gni-to-cmake.py:172-174 | the precedence table gives a token list the tree `t` if and only if `t` needs no parenthesis and has those tokens |
| `Precedence.PrintedConditionKept` | gni-to-cmake.py:486-493 | printing a condition without parentheses keeps its meaning if and only if none was needed |
| `Precedence.LostParenthesis` | gni-to-cmake.py:486-493 | the conjunction of a with a disjunction of b and c is printed as another condition, for all a, b, c |
| `GnAst.ExcludeKeepsMeaning` | gni-to-cmake.py:422-440 | removing statements of the excluded kinds does not change what a program computes when GN ignores those kinds |
| `CMakeArguments.SplitJoin` | gni-to-cmake.py:500-516 | a CMake list that is joined with semicolons splits back into the same items |
| `CMakeArguments.JoinAppend` | gni-to-cmake.py:518-535 | appending to a joined list is joining the longer list |
| `CMakeArguments.SubstituteReference` | gni-to-cmake.py:404-409 | the reference that replaces a variable stands for the value of the variable |
| `CMakeConditions.ReducesIff` | gni-to-cmake.py:536-542 | what the passes over the arguments of `if` leave of operands, joins and negations is one value if and only if the operands are one more than the joins and no two negations stand in a row |
| `CMakeConditions.FoldGroup` | gni-to-cmake.py:396-399 | a run of one operator, grouped in any way, folds to its value |
| `CMakeMachine.RunCommand` | gni-to-cmake.py:500-547 | a command with plain or quoted arguments does what the command does to the store and the open conditions |
| `CMakeMachine.RunAppended` | gni-to-cmake.py:471-472 | the output of two parts in sequence acts like one after the other |
| `CMakeWriter.EmitCons` | gni-to-cmake.py:471-472 | the output of a list of nodes is that of the first followed by that of the rest, or stops where the first one raises |
| `CMakeWriter.Writer.VisitAll` | gni-to-cmake.py:471-472 | what is appended to the output is exactly the specification of the output, for each child in order; on an error the writer reports it |
| `CMakeWriter.Writer.Visit` | gni-to-cmake.py:468-560 | what is appended to the output is exactly the specification of the output, for any node, including the error for unknown ones; on an error the writer reports it |
| `CMakeWriter.Writer.VisitExpr` | gni-to-cmake.py:486-493 | what is appended to the output is exactly the specification of the output, for unary and binary expressions, with every operator in its own spelling; on an error the writer reports it |
| `CMakeWriter.Writer.VisitAssignment` | gni-to-cmake.py:497-535 | what is appended to the output is exactly the specification of the output, for assignments and appends, with the one-element form and the append that is never closed; on an error the writer reports it |
| `CMakeWriter.Writer.VisitIf` | gni-to-cmake.py:536-547 | what is appended to the output is exactly the specification of the output, for conditions, including the one that is dropped because its first block is empty; on an error the writer reports it |
| `CMakeWriter.Writer.VisitCondition` | gni-to-cmake.py:540-542 | what is appended to the output is exactly the specification of the output, for the head of a condition; on an error the writer reports it |
| `CMakeWriter.Writer.VisitElse` | gni-to-cmake.py:544-546 | what is appended to the output is exactly the specification of the output, for an else part; on an error the writer reports it |
| `CMakeWriter.Writer.VisitForeach` | gni-to-cmake.py:548-556 | what is appended to the output is exactly the specification of the output, for loops; on an error the writer reports it |
| `CMakeWriter.Writer.VisitForeachArgs` | gni-to-cmake.py:549-553 | what is appended to the output is exactly the specification of the output, for the head of a loop; on an error the writer reports it |
| `GniConditions.ConditionWritten` | gni-to-cmake.py:386-401 | for every condition over all ten operators and `!`: the words written are its tokens in order with the operators renamed |
| `GniConditions.WrittenConditionKept` | gni-to-cmake.py:172-174 | reading the written words under the precedence table gives the condition back if and only if it needs no parentheses and no variable is named like one of the four operator words |
| `GniConditions.EvaluableIff` | gni-to-cmake.py:394-401 | CMake can evaluate what is written for a condition if and only if no negation is applied to a condition that starts with one and no `!=` has a string on its left, for every condition of flags and string comparisons however grouped |
| `GniConditions.ConditionKept` | gni-to-cmake.py:394-401 | a disjunction of conjunctions of tests, grouped in any way, has in CMake the truth value it has in GN |
| `GniConditions.DisjunctionValue` | gni-to-cmake.py:394-401 | the value CMake gives a disjunction of conjunctions of any flags and tests, each taken as CMake takes it |
| `GniConditionLimits.UnequalKeptIff` | gni-to-cmake.py:394-401 | `!=` is not renamed and is written without blanks; its value is right if and only if no string is on its left and both sides are equal, unless CMake has a variable with the whole text as its name |
| `GniConditionLimits.FlagKeptIff` | gni-to-cmake.py:475-477 | a flag keeps its value if and only if its name is no constant of CMake with another value |
| `GniConditionLimits.NegatedAndKeptIff` | gni-to-cmake.py:486-493 | a negated conjunction keeps its value if and only if its second part holds |
| `GniConditionLimits.GroupedOrKeptIff` | gni-to-cmake.py:486-493 | a conjunction with a disjunction keeps its value if and only if the first part holds or the last does not |
| `GniConditionLimits.RegroupedWritten` | gni-to-cmake.py:486-493 | every condition is written with the tokens of the disjunction of conjunctions it is regrouped to |
| `GniConditionLimits.ConditionValue` | gni-to-cmake.py:386-401 | what CMake computes for every condition of flags and string comparisons: the value of the regrouped condition, or nothing in exactly the cases of `EvaluableIff` |
| `GniConditionLimits.ConditionKeptIff` | gni-to-cmake.py:386-401 | so every such condition keeps its value if and only if CMake can evaluate it and the regrouped one has that value |
| `GniConditionLimits.GroupingKeptIff` | gni-to-cmake.py:486-493 | without `!=` and without flags named like constants: if and only if it can be evaluated and the regrouped condition has the same value in GN |
| `GniConditionLimits.ReferenceKeptIff` | gni-to-cmake.py:407-409 | a reference compared with a literal is looked up twice; its value is right if and only if the text is there, is no other test of CMake, and is not the name of a variable whose value could be mistaken |
| `GniLists.ItemsExpand` | gni-to-cmake.py:402-411 | the items of a list, written out and expanded by CMake, are the GN items under the prefix, except that a bare variable is its name |
| `GniLists.OperandScanned` | gni-to-cmake.py:402-411 | an operand of the form `[] + ... + v` is written as nested references; CMake reads it by looking up `v`, then the variable named by what it found, once for every `[]` |
| `GniLists.ConvertedIsSum` | gni-to-cmake.py:402-411 | every GN list that is converted to a list is a literal list with operands in front of it that are variables or the empty list plus such an operand |
| `GniLists.SumExpands` | gni-to-cmake.py:402-411 | the words CMake reads for such a sum: what its operands are looked up as, followed by the items |
| `GniLists.SumKeptIff` | gni-to-cmake.py:402-411 | those words are the GN values under the prefix if and only if the looked-up lists are the values of the operands, every text is plain and every bare variable holds its own name |
| `GniLists.PlainSumKeptIff` | gni-to-cmake.py:404-406 | with nothing but variables in front, the lookups are always right and only the items decide |
| `GniLists.ListExpanded` | gni-to-cmake.py:402-411 | for a supported right-hand side, also variables plus a list, they are |
| `GniLists.AssignedIff` | gni-to-cmake.py:497-516 | storing words keeps every variable equal to its GN value if and only if they are the values under the prefix |
| `GniLists.AppendedIff` | gni-to-cmake.py:517-535 | the same for appending them |
| `GniToCMake.AssignRuns` | gni-to-cmake.py:497-516 | `set` with the written items leaves every variable equal to its GN value under the prefix |
| `GniToCMake.AppendRuns` | gni-to-cmake.py:517-535 | the same for `list(APPEND` |
| `GniToCMake.Skipped` | gni-to-cmake.py:536-547 | output inside a branch that is not taken changes nothing, however deep the conditions in it are nested |
| `GniToCMake.Runs` | gni-to-cmake.py:468-547 | output of a supported statement in a taken branch does to the store what the statement does to the variables |
| `GniToCMake.IfRuns` | gni-to-cmake.py:536-547 | the same for a condition with its else-if and else parts, which leaves the open conditions as they were |
| `GniToCMake.ElseRuns` | gni-to-cmake.py:544-546 | an else part acts exactly if the first branch was not taken |
| `GniToCMake.CompilerCorrect` | gni-to-cmake.py:386-547 | for every supported program, prefix, set of excluded kinds and start: if GN finishes, the output finishes with every `if` closed and every variable equal to its GN value under the prefix |
| `GniLimits.AssignKeptIff` | gni-to-cmake.py:497-516 | every assignment that GN evaluates is kept if and only if its right-hand side is a sum whose operands are looked up as their values and whose items are plain texts without bare variables other than ones that hold their own name, or is the empty list |
| `GniLimits.AppendKeptIff` | gni-to-cmake.py:517-535 | every append that GN evaluates is a finished command with the right effect if and only if it is one to a list and its right-hand side is such a sum; an append to a string is never finished |
| `GniLimits.NestedReferenceKeptIff` | gni-to-cmake.py:407-409 | `x = ([] + v) + [...]` is written with a reference to a reference, which is right if and only if the variable named by the joined value of `v` holds that same list and the items are kept |
| `GniLimits.AppendClosedIff` | gni-to-cmake.py:517-535 | an append that GN evaluates is a finished command if and only if its right-hand side converts to a list |
| `GniLimits.BareVariableKeptIff` | gni-to-cmake.py:475-477 | a list of one string variable is written as the name of the variable, which is right if and only if that is its text |
| `GniLimits.EmptyThenKeptIff` | gni-to-cmake.py:536-539 | a condition with an empty first block is not written; nothing is lost if and only if it holds or every variable its else part assigns or appends to ends with the value it had |
| `GniLimits.EmptyThenAppendsIff` | gni-to-cmake.py:536-539 | for an else part that only appends: if and only if the condition holds or every append on the path taken is of the empty list |
| `GniLimits.LostElse` | gni-to-cmake.py:536-539 | an else block that has an effect and is lost |
| `GniLimits.DereferencedTwice` | gni-to-cmake.py:407-409 | two variables for which a comparison that is false in GN is true in CMake |
| `CodeGeneration.Runner.AnyHashDirty` | scripts/run_code_generation.py:150-162 | the result says whether any file differs from its stored hash, and the new hashes are those of all the files |
| `CodeGeneration.Runner.AnyOldHashMissing` | scripts/run_code_generation.py:165-176 | the result says whether a stored hash file, or a file named in one, has no current hash |
| `CodeGeneration.Runner.UpdateOutputHashes` | scripts/run_code_generation.py:179-184 | the stored hashes become those of the outputs after formatting, or the step fails on a missing output |
| `CodeGeneration.Runner.VisitGenerators` | scripts/run_code_generation.py:233-253 | one pass over the generators, equal to its specification: files are compared by the lists from before the run, and a generator that is run works with the lists it has by then |
| `CodeGeneration.Runner.Verify` | scripts/run_code_generation.py:223-273 | a verify run changes no file and passes exactly if something was selected, every script answered and nothing is dirty |
| `CodeGeneration.Runner.Generate` | scripts/run_code_generation.py:223-301 | a generating run leaves the file tree and the hash store of its specification, which asks the scripts for their outputs again before it replaces the output hashes |
| `CodeGenerationRuns.SteadyRun` | scripts/run_code_generation.py:228-295 | if nothing the generators write changes their lists, a run is the one with the lists it starts with |
| `CodeGenerationRuns.VisitedOnce` | scripts/run_code_generation.py:233-253 | only the visit of a generator touches its outputs, its hashes and its mark |
| `CodeGenerationRuns.HashesWritten` | scripts/run_code_generation.py:275-301 | the hashes a run writes: sources as they were at the visit, outputs as they are at the end |
| `CodeGenerationRuns.OutputsWritten` | scripts/run_code_generation.py:233-301 | every output of a dirty generator is what it produced, formatted; those of a clean one are as they were |
| `CodeGenerationSound.EntrySoundIff` | scripts/run_code_generation.py:233-301 | what a run writes for a generator is sound, so that any file tree that matches it and has lost no source from the lists is up to date, if and only if the generator ran or was up to date when it was found clean; whatever was stored before |
| `CodeGenerationSound.SourcesKeptExact` | scripts/run_code_generation.py:150-176 | the condition a caller can check: sound hashes that match guarantee that a generator is up to date, whatever it computes, if and only if no stored name other than one of an output has left its lists |
| `CodeGenerationSound.RunKeepsSound` | scripts/run_code_generation.py:233-301 | a run, complete or not, over all or named generators, keeps the store sound if no generator it finds clean has lost a source from its lists |
| `CodeGenerationSound.HistorySound` | scripts/run_code_generation.py:233-301 | so does every sequence of such runs, edits and deletions, with lists that may change between runs |
| `CodeGenerationSound.PassingMeansClean` | scripts/run_code_generation.py:233-273 | a passing verify run means that every script answered and every file it lists matches its stored hash |
| `CodeGenerationSound.FullPassKeepsNames` | scripts/run_code_generation.py:165-176 | if no generator was named, it also means that no stored name has left the lists |
| `CodeGenerationSound.VerifySound` | scripts/run_code_generation.py:150-301 | after every such sequence that starts without hashes, a passing verify run implies that every output every script lists now is what it would produce now, formatted; for a generator verified by name, if no source has left its lists |
| `CodeGenerationSound.HistoryExplains` | scripts/run_code_generation.py:233-301 | for every sequence of runs, edits and deletions, also with sources that left the lists unnoticed: matching hashes say what the outputs were made from |
| `CodeGenerationSound.VerifyExplains` | scripts/run_code_generation.py:150-301 | after it, a passing verify run, named or not, implies that every output was made from the sources as they are now and perhaps others that have left the lists |
| `CodeGenerationLost.NamedVerifyMisses` | src/libANGLE/renderer/vulkan/gen_vk_internal_shaders.py:687-702 | with a generator that lists a directory: after one of two files is deleted it passes by name although its output is out of date, and does not pass otherwise |
| `CodeGenerationLost.FullVerifyMisses` | scripts/run_code_generation.py:233-301 | after one more full run it passes without being named too, still out of date |
| `CodeGenerationLost.DirectoryFair` | src/libANGLE/renderer/vulkan/gen_vk_internal_shaders.py:687-702 | nothing else is wrong with that generator: all its runs meet the other conditions of `VerifySound` |
| `CodeGenerationLost.FirstRunVerified` | scripts/run_code_generation.py:233-301 | for every injective hash, a first run of that generator meets all conditions of `VerifySound`, passes and is up to date |
| `CodeGenerationLost.UnsteadyVerifyMisses` | scripts/run_code_generation.py:228-250 | a generator that lists what another one writes: it is run with a file that its hashes do not name, so the condition on lists that a run changes is needed |
| `CodeGenerationSettles.FullRunForgets` | scripts/run_code_generation.py:233-301 | for all generators that are clean on what they list now: a full run runs none of them, changes no file and makes verification pass, whatever had left the lists |
| `CodeGenerationSettles.RunTidies` | scripts/run_code_generation.py:255-301 | after a successful full run no hash file holds a name that is not listed |
| `CodeGenerationSettles.RunSettles` | scripts/run_code_generation.py:233-301 | a run makes a generator clean for good once the generators it reads from are settled |
| `CodeGenerationSettles.LayerSettles` | scripts/run_code_generation.py:233-301 | one run settles one more layer of generators |
| `CodeGenerationSettles.RunsSettle` | scripts/run_code_generation.py:233-301 | as many runs as there are layers settle every generator |
| `CodeGenerationSettles.AllCleanPasses` | scripts/run_code_generation.py:256-273 | a store that is tidy and clean for every generator passes |
| `CodeGenerationSettles.HistoryKnown` | scripts/run_code_generation.py:233-301 | no history of edits and runs, however they end and whatever the lists are, adds a hash file but the generators' own |
| `CodeGenerationSettles.RunsMakeVerifyPass` | scripts/run_code_generation.py:233-301 | if generators depend on each other without cycles and write nothing that changes their lists: from any such store, right or wrong and with names listed or not, a verify run passes after as many successful generating runs as there are layers |
| `CodeGenerationSettles.HistoryThenRunsPass` | scripts/run_code_generation.py:233-301 | the same after any history that started without hashes, whatever the lists were during it |
| `BlueprintDeps.InheritedIsReachable` | scripts/generate_android_bp.py:330-400 | the plain recursion lists a static library, or a generated header, if and only if it can be reached through followed dependencies, or replaces one that can |
| `BlueprintDeps.ReplacementsInherited` | scripts/generate_android_bp.py:344-397 | with the tables of the script: nothing is inherited through a blocked target, and whoever reaches a dependency that is replaced inherits all its replacements |
| `BlueprintDeps.Converter.Collect` | scripts/generate_android_bp.py:330-400 | the memoised function returns the cached entry; every entry, also those edited in place before, still has the lists of the plain recursion followed by the additions of its own conversions |
| `BlueprintDeps.Converter.Build` | scripts/generate_android_bp.py:330-400 | a first visit builds and caches lists of its own |
| `BlueprintDeps.Converter.AddDependency` | scripts/generate_android_bp.py:344-397 | one round of the loop over the dependencies adds exactly what the plain recursion adds for it |
| `BlueprintDeps.Converter.Insert` | scripts/generate_android_bp.py:330-331 | caching a finished entry keeps every cached entry right |
| `BlueprintDeps.Converter.Convert` | scripts/generate_android_bp.py:548-574 | converting a target hands out the cached lists, extends two of them in place, and leaves every cached entry with the lists of the plain recursion and the additions of its conversions |
| `BlueprintDeps.ConvertAll` | scripts/generate_android_bp.py:548-574 | for every order of conversions, with repetitions, on every acyclic graph: each blueprint has the static libraries and generated headers of the plain recursion, and its shared libraries and defaults followed by the additions, once per conversion of that target |
| `BlueprintDeps.ConvertedOnce` | scripts/generate_android_bp.py:548-574 | a target that is converted once gets the additional shared libraries and defaults once |
| `BlueprintMerge.MergeBlueprints` | scripts/generate_android_bp.py:469-492 | the loops over properties and ABIs compute the specified merge |
| `BlueprintMerge.MergeExact` | scripts/generate_android_bp.py:469-492 | of every list property but the defaults, an ABI has a value if and only if it is common or specific to that ABI after the merge; common is exactly what all have |
| `BlueprintMerge.MergeDefaults` | scripts/generate_android_bp.py:482-485 | the defaults of all ABIs are joined, and no ABI keeps any of its own |
| `BlueprintMerge.MergeNoEmpty` | scripts/generate_android_bp.py:484-491 | the merge leaves no empty list behind, in common or under an ABI |
| `BlueprintFlags.Blueprint.Rewrite` | scripts/generate_android_bp.py:1064-1115 | rewriting one target in place gives the specified target |
| `BlueprintFlags.HoistAll` | scripts/generate_android_bp.py:1064-1115 | all targets are rewritten with the flags common to them as they were before, and the new defaults module has exactly those flags |
| `BlueprintFlags.MakeAuto` | scripts/generate_android_bp.py:1104-1113 | the new defaults module has the common flags and those of each ABI, and no entry for an ABI without |
| `BlueprintFlags.CommonIsEverywhere` | scripts/generate_android_bp.py:1064-1083 | what is common is in every target that has flags of that kind |
| `BlueprintModules.InheritsExtended` | scripts/generate_android_bp.py:1087-1091 | adding a defaults module changes nothing else that is inherited |
| `BlueprintModules.InheritsNewIff` | scripts/generate_android_bp.py:1087-1091 | the new module is inherited if and only if a generated module that names it is |
| `BlueprintModules.HoistExact` | scripts/generate_android_bp.py:1064-1115 | over the whole graph of defaults: after hoisting, a module that inherits cflags from a generated module, or has them, is compiled with what it was and the flags common to the ABI; any other loses exactly those, except where a module written by hand gives them |
| `BlueprintModules.KeepsFlagsIff` | scripts/generate_android_bp.py:1064-1115 | a module keeps all its flags on an ABI if and only if it inherits cflags, or no generated flags of that ABI, or what is common there is written by hand |
| `BlueprintModules.GainsNothingIff` | scripts/generate_android_bp.py:1064-1115 | a module that inherits cflags gains nothing on an ABI if and only if it had the common flags of that ABI; inheriting flags there is enough |
| `BlueprintModules.NonConformantKept` | scripts/generate_android_bp.py:968-987 | moving the non-conformant flag to its own defaults module keeps the flags of every module |
| `BlueprintModules.MergedFlags` | scripts/generate_android_bp.py:469-492 | after the merge the flags of every ABI are those the library was described with |
| `BlueprintModules.FlagsEndToEnd` | scripts/generate_android_bp.py:968-1115 | through merge, separation and hoisting, for libraries that inherit from each other: what the compiler sees on every ABI is what was described, with or without the flags common to the ABI |
| `BlueprintModules.LoneLibraryLoses` | scripts/generate_android_bp.py:1093-1103 | a library alone in its build, whose flags all belong to single ABIs, loses every one of them |
| `BlueprintModules.LostFlag` | scripts/generate_android_bp.py:1093-1103 | such a build, made from the descriptions the script makes |
| `EntryPointLocks.EntryPointDisciplined` | scripts/generate_entry_points.py:524-617 | the steps of every guarded entry point, also where validation fails and returns at once, acquire before they enter, release what they hold, and run tail calls only unlocked |
| `EntryPointLocks.AdvanceKeeps` | scripts/generate_entry_points.py:524-617 | one step of one thread keeps its discipline and the locks of all others |
| `EntryPointLocks.NextKeeps` | scripts/generate_entry_points.py:524-617 | one step of any thread keeps the discipline of all |
| `EntryPointLocks.RunKeeps` | scripts/generate_entry_points.py:524-617 | every state of every interleaving keeps the discipline |
| `EntryPointLocks.NoTwoInside` | scripts/generate_entry_points.py:3571-3577 | in every interleaving no two threads are validating or calling commands that touch the same kind of resource |
| `EntryPointLocks.TailCallsUnlocked` | scripts/generate_entry_points.py:585-617 | whenever a thread is about to run tail calls it holds no lock |
| `EntryPointLocks.NoTailCallsLeft` | scripts/generate_entry_points.py:3626-3690 | between entry points a thread has no queued tail calls and no lock, also after a failed validation that skipped the end of the entry point, if only the listed commands queue any |
| `EntryPointLocks.ReleasesOwnLock` | scripts/generate_entry_points.py:524-617 | a thread only releases a lock it holds |
| `EntryPointLocks.GuardedIff` | scripts/generate_entry_points.py:2149-2169 | an entry point holds the locks of everything its body touches if and only if it is not a command without a result that touches sync objects |
| `EntryPointLocks.DescribedGuarded` | scripts/generate_entry_points.py:1764-1789 | for every command name: it is guarded unless it returns nothing, is in one of the two tables of sync commands, and is not lockless |
| `EntryPointLocks.UnguardedShares` | scripts/generate_entry_points.py:524-531 | any command that is not guarded touches the objects of every ordinary sync command under no common lock |
| `Matrices.CofactorsTimes` | util/Matrix.cpp:139-191 | the cofactor matrix times the matrix is the determinant times the identity, for every matrix |
| `Matrices.MulAssociates` | util/Matrix.cpp:223-257 | the product is associative |
| `Matrices.ApplyMul` | util/Matrix.cpp:284-290 | applying a product to a vector is applying its factors in turn |
| `Matrices.MulIdentity` | util/Matrix.cpp:74-78 | the identity is neutral on both sides |
| `Matrices.TransposeMul` | util/Matrix.cpp:204-209 | transposing reverses a product |
| `Matrices.DetMul` | util/Matrix.cpp:190-191 | the determinant that `invert` computes is multiplicative |
| `Matrices.DetTranspose` | util/Matrix.cpp:190-209 | transposing keeps the determinant |
| `Matrices.InverseUnique` | util/Matrix.cpp:137-202 | any left inverse is what `invert` returns, and is a right inverse |
| `Matrices.InverseIff` | util/Matrix.cpp:137-202 | the result is a left inverse, and a right inverse, if and only if the determinant is not zero |
| `Matrices.InverseTwice` | util/Matrix.cpp:137-202 | inverting twice gives the matrix back if and only if its determinant is not zero |
| `Matrices.InverseMul` | util/Matrix.cpp:137-257 | inverting reverses a product of invertible matrices |
| `Matrices.InverseMulIff` | util/Matrix.cpp:137-257 | for all matrices: it does so if and only if both or neither are invertible, or one is the identity |
| `Matrices.InverseTranspose` | util/Matrix.cpp:137-209 | inverting and transposing commute, for every matrix |
| `MatrixStore.Matrix4.Identity` | util/Matrix.cpp:19-37 | a new matrix is the identity |
| `MatrixStore.Matrix4.Rows` | util/Matrix.cpp:39-72 | arguments given row by row are stored column by column |
| `MatrixStore.Matrix4.ScaleBy` | util/Matrix.cpp:275-282 | the loop over the sixteen numbers scales the matrix in place |
| `MatrixStore.Matrix4.MultiplyBy` | util/Matrix.cpp:259-263 | multiplying in place gives the product, also by the matrix itself |
| `MatrixStore.Matrix4.Product` | util/Matrix.cpp:223-257 | a new matrix with the product |
| `MatrixStore.Matrix4.Transposed` | util/Matrix.cpp:204-209 | a new matrix with the transpose |
| `MatrixStore.Matrix4.Invert` | util/Matrix.cpp:137-202 | cofactors, determinant and scaling in place give the inverse, or the identity; it inverts on both sides if and only if the determinant is not zero |
| `MatrixStore.Matrix4.Equals` | util/Matrix.cpp:292-302 | the comparison loop decides equality |
| `DagTraverse.Traversal.Recurse` | scripts/export_targets.py:90-107 | from any state, on any finite graph with or without cycles: what is newly visited is closed under the successors, and everything visited is reachable |
| `DagTraverse.Traversal.Run` | scripts/export_targets.py:87-111 | a traversal that is not stopped calls back for exactly the reachable keys, each once |
| `DagTraverse.ClosedHoldsPath` | scripts/export_targets.py:87-111 | a closed set with the roots holds everything reachable |
| `ExportTargets.AbsorbFields` | scripts/export_targets.py:152-166 | the loop over the fields of a target adds its lists to the flattened fields, or fails on a field that cannot be made a set |
| `ExportTargets.FoldFlat` | scripts/export_targets.py:140-167 | any order of callbacks succeeds if and only if every target passes the checks, and then every field is the root's own together with the union of what was given |
| `ExportTargets.SortFields` | scripts/export_targets.py:171-173 | collected sets become sorted lists; other fields stay |
| `ExportTargets.FlattenedTarget` | scripts/export_targets.py:134-174 | flattening succeeds if and only if every reachable target passes the checks; each list field is the root's own and those of all non-copy targets reachable without passing a library, sorted |
| `ExportTargets.GatherLibraries` | scripts/export_targets.py:348-360 | the libraries are exactly the library targets reachable from the roots |
| `ExportTargets.FlatDeps` | scripts/export_targets.py:157-169 | the flattened `deps` are exactly the targets that were visited |
| `ExportTargets.DepLibs` | scripts/export_targets.py:376-382 | the linked libraries are exactly those reachable without passing a library; no lookup fails |
| `ExportTargets.Export` | scripts/export_targets.py:364-382 | the whole export: an entry for every gathered library, with its flattened fields and linked libraries, or a failure, and exactly when |
| `ExportTargets.LinkChain` | scripts/export_targets.py:134-174 | every library a library depends on, however far, is linked through a chain of direct links |
| `ExportTargets.LinksGathered` | scripts/export_targets.py:348-382 | what an exported library links against is exported |
| `EglContextAttributes.WriteAttributes` | util/EGLWindow.cpp:581-672 | the list is pairs ended by one EGL_NONE: the extra attributes, then what the request and the extensions call for |
| `EglContextAttributes.CopyExtra` | util/EGLWindow.cpp:582-587 | the loop copies the pairs before the closing EGL_NONE |
| `EglContextAttributes.AttributesRead` | util/EGLWindow.cpp:589-672 | reading any attribute from the list gives what was written for it, and nothing else |
| `EglContextAttributes.AttributesWellFormed` | util/EGLWindow.cpp:581-672 | the list is well formed for every request, display and extra attributes |
| `EglContextAttributes.RequestRecovered` | util/EGLWindow.cpp:477-682 | a request that is not refused is recovered from the list, with the defaults of section 3.7.1 of the EGL 1.5 specification, if and only if the display has EGL_KHR_create_context or only defaults were requested |
| `EglWindow.Window.InitializeDisplay` | util/EGLWindow.cpp:164-333 | succeeds exactly if every check and call does; otherwise nothing is live |
| `EglWindow.Window.InitializeSurface` | util/EGLWindow.cpp:335-464 | returns the specified result; on failure nothing is live |
| `EglWindow.Window.CreateContext` | util/EGLWindow.cpp:477-682 | returns a context exactly if the request is not refused and both calls succeed, with the specified attribute list |
| `EglWindow.Window.InitializeContext` | util/EGLWindow.cpp:684-725 | exact result; nothing is live unless the context was made current |
| `EglWindow.Window.InitializeGL` | util/EGLWindow.cpp:132-152 | a failed initialization leaves nothing live except if only the version could not be queried |
| `EglWindow.Window.MakeCurrent` | util/EGLWindow.cpp:919-949 | never passes only one of two surfaces, and never uses a display that is not live |
| `EglWindow.Window.MakeContextCurrent` | util/EGLWindow.cpp:951-957 | the same for a context with the window's surface |
| `EglWindow.Window.DestroyContext` | util/EGLWindow.cpp:751-760 | the display assertion holds; the context is released |
| `EglWindow.Window.DestroySurface` | util/EGLWindow.cpp:740-749 | the display assertion holds; the surface is released |
| `EglWindow.Window.DestroyGL` | util/EGLWindow.cpp:727-738 | everything stored is released and the display is terminated last |
| `EglWindow.ReleasedWhileLive` | util/EGLWindow.cpp:727-760 | in a monitored log, every release is of something live, on the live display |
| `EglWindow.Balanced` | util/EGLWindow.cpp:727-760 | in a monitored log, what was acquired more often than released is exactly what is live |
| `EglWindow.Session` | util/EGLWindow.cpp:84-100 | from construction to destruction, for every sequence of operations and all EGL answers: no call that must not happen, and every display, surface and context released as often as acquired |
| `CommandRegistry.OwnedIff` | scripts/registry_xml.py:577-582 | a command belongs to a source if and only if it lists it and no earlier source does |
| `CommandRegistry.AllComplete` | scripts/registry_xml.py:519-525 | the list of all commands holds exactly the commands any source lists |
| `CommandRegistry.AllNoDup` | scripts/registry_xml.py:519-532 | the list of all commands has no duplicates if and only if no source lists a new command twice |
| `CommandRegistry.FindDupes` | scripts/registry_xml.py:655-659 | the loop finds the occurrences of registered commands, in order |
| `CommandRegistry.RemoveAll` | scripts/registry_xml.py:661-662 | the loop removes the first occurrence of each in turn |
| `CommandRegistry.RemoveKept` | scripts/registry_xml.py:655-662 | which leaves exactly the new commands, in order |
| `RegistryXml.Registry.GetAllCommands` | scripts/registry_xml.py:519-525 | the lists in the order of their keys; complete, and duplicate-free exactly if no source lists a new command twice |
| `RegistryXml.Registry.NoteSources` | scripts/registry_xml.py:573-575 | every listed command gets the source appended to its definers |
| `RegistryXml.SourcesStep` | scripts/registry_xml.py:572-575 | after any history, the definers of a command are all sources that list it, in order |
| `RegistryXml.Registry.AddCommands` | scripts/registry_xml.py:568-582 | the history grows by the feature; its commands are those it is the first to define |
| `RegistryXml.Registry.ListExtensions` | scripts/registry_xml.py:609-641 | the sorted lists of the supported extensions, without other APIs and skipped commands |
| `RegistryXml.Registry.AddExtension` | scripts/registry_xml.py:643-666 | one extension is split into new commands and duplicates |
| `RegistryXml.Registry.AddExtensionCommands` | scripts/registry_xml.py:606-666 | the history grows by the supported extensions in the order of their names, each split at that point |
| `RegistryXml.ExtensionPartition` | scripts/registry_xml.py:655-665 | new commands and duplicates partition the list of an extension |
| `RegistryXml.AddFeatures` | scripts/registry_xml.py:568-582 | any features in turn: their sources, and the table with the commands of each |
| `RegistryXml.FeatureTableIs` | scripts/registry_xml.py:577-582 | in that table a feature has exactly the commands it is the first to define, unless a later one has its name |
| `RegistryXml.Build` | scripts/registry_xml.py:568-666 | any features, then all extensions: what is registered, for whom, the table of the features, and when the list of all commands has no duplicates |
| `ParamNames.FindNameRange` | scripts/generate_entry_points.py:1954-1976 | the two loops find the range of the last identifier, or fail |
| `ParamNames.PlainJoin` | scripts/generate_entry_points.py:1979-2006 | a name joined to a type without parentheses is found again if nothing behind it looks like a name |
| `ParamNames.FunctionJoin` | scripts/generate_entry_points.py:1994-1998 | a name joined to a function type is found again |
| `ParamNames.ReversedJoin` | scripts/generate_entry_points.py:1959-1976 | with a closing before the first opening parenthesis only the last character is found |
| `ParamNames.JoinSplit` | scripts/generate_entry_points.py:1954-2006 | for every string and every identifier: joining and splitting gives both back if and only if the type is in normal form |
| `ParamNames.SizedArrayLost` | scripts/generate_entry_points.py:2000-2003 | an array type with its size is not given back |
| `ParamSplits.SplitJoinIff` | scripts/generate_entry_points.py:1954-2006 | for every parameter in which a name is found: splitting it, joining what was split and splitting again gives the same type and name if and only if a condition on its brackets, parentheses and spaces holds |
| `ParamSplits.SizedParameterLost` | scripts/generate_entry_points.py:2000-2003 | it fails for every array parameter with a size in front of the name |
| `ParamSplits.SizedExample` | scripts/generate_entry_points.py:2000-2003 | the parameter `x[3] y` is such an input |
| `ParamSplits.ReversedStable` | scripts/generate_entry_points.py:1959-1976 | it holds for every parameter with a closing parenthesis before the first opening one, unless it starts with it |
| `CaptureTypes.CaptureName` | scripts/generate_entry_points.py:2347-2388 | the method with its loop computes the encoding |
| `CaptureTypes.EncodeIs` | scripts/generate_entry_points.py:2364-2388 | the name of a canonical type is its base followed by the marker of its shape |
| `CaptureTypes.DecodeIs` | scripts/generate_entry_points.py:3069-3133 | the type decoded from such a name |
| `CaptureTypes.TypeGivenBack` | scripts/generate_entry_points.py:2347-3133 | encoding and decoding gives a type back if and only if a pointer to pointers to const is spelled the way the decoder spells it |
| `CaptureTypes.NamesDiffer` | scripts/generate_entry_points.py:3159-3164 | two canonical types never share a union member |
| `CaptureTypes.NamesShared` | scripts/generate_entry_points.py:3114-3117 | the two spellings of a pointer to pointers to const share one |
| `SphereGeometry.SlotInjective` | util/geometry_utils.cpp:41-41 | different grid points have different slots |
| `SphereGeometry.SlotSurjective` | util/geometry_utils.cpp:28-43 | every slot belongs to a grid point |
| `SphereGeometry.CreateSphere` | util/geometry_utils.cpp:25-64 | every slot holds the vertex of its grid point; the index list is the specified one, has the announced length, and names only vertices, for every number of slices |
| `SphereGeometry.CreateVertices` | util/geometry_utils.cpp:32-45 | the nested loops fill the two vertex arrays |
| `SphereGeometry.CreateIndices` | util/geometry_utils.cpp:47-63 | the nested loops push the indices of all cells in order |
| `SphereGeometry.ShortLossless` | util/geometry_utils.cpp:53-61 | the conversion to 16 bits loses nothing if and only if there are at most 361 slices |
| `SphereGeometry.SidesDistinct` | util/geometry_utils.cpp:53-61 | no two triangles run along an edge in the same direction |
| `SphereGeometry.InteriorEdges` | util/geometry_utils.cpp:53-61 | an edge is used both ways if and only if it is not on the border of the grid |
| `SphereGeometry.MeshOnce` | util/geometry_utils.cpp:47-63 | for every number of slices: no directed pair of indices occurs twice in the emitted list if and only if there are at most 361 slices |
| `SphereGeometry.PairRepeated` | util/geometry_utils.cpp:53-61 | with more, two positions of the list that run along the same pair |
| `SphereGeometry.InteriorBothWays` | util/geometry_utils.cpp:47-63 | for every number of slices the pair of a side that is not on the border occurs both ways |
| `SphereGeometry.MeshClosed` | util/geometry_utils.cpp:47-63 | for every number of slices: the sides whose pairs occur both ways are exactly those not on the border if and only if there are at most 361 slices |
| `SphereGeometry.BorderRepeated` | util/geometry_utils.cpp:53-61 | with more, a side on the border whose pair occurs both ways |
| `EnumTables.DumpGroup` | scripts/gen_gl_enum_utils.py:130-151 | the loop keeps the first pair of every value; the labels of the generated switch increase strictly |
| `EnumTables.NameOfValue` | scripts/gen_gl_enum_utils.py:134-151 | a value within the bound gets the shortest and then alphabetically first of its names, any other value none |
| `EnumTables.LowerBound` | scripts/gen_gl_enum_utils.py:97-99 | binary search finds the first entry that is not before the name |
| `EnumTables.ToValue` | scripts/gen_gl_enum_utils.py:95-108 | binary search in the sorted table finds what a search from the front finds |
| `EnumTables.SearchFindsLeast` | scripts/gen_gl_enum_utils.py:95-108 | a search in the sorted table finds the least value listed for a name, as it is stored |
| `EnumTables.NamesLeadBack` | scripts/gen_gl_enum_utils.py:130-183 | for every group and every table that lists it: the name generated for a value leads back to it if and only if the least value listed for that name, as it is stored, is the value |
| `EnumTables.OneValueLeadsBack` | scripts/gen_gl_enum_utils.py:130-183 | a value whose names have no other value is led back to if and only if it fits 32 bits |
| `EnumTables.TwoValuesLost` | src/common/gl_enum_utils_autogen.cpp:8712-8713 | a name listed with two values gets lost at the larger one, for every name and every two values |
| `CommitMessages.SplitIntoCommits` | PRESUBMIT.py:38-49 | no text is lost; every commit but perhaps the last ends with its only Change-Id paragraph |
| `CommitMessages.CheckCommit` | PRESUBMIT.py:81-184 | nothing is reported for a commit if and only if, trimmed, it is allowlisted or clean |
| `CommitMessages.CheckTrimmed` | PRESUBMIT.py:99-184 | the checks after the allowlist, popping lines from both ends |
| `CommitMessages.CheckBody` | PRESUBMIT.py:148-184 | the blank line after the summary and the lines of the body |
| `CommitMessages.PopGap` | PRESUBMIT.py:115-129 | the blank lines between tags and body |
| `CommitMessages.CleanIff` | PRESUBMIT.py:99-184 | lines are clean if and only if they are a summary, one blank line and a body or neither, at most one blank line, and tags, within the length limits and without tabs |
| `CommitMessages.CheckDescription` | PRESUBMIT.py:76-185 | nothing is reported if and only if every commit passes; every report names a commit that does not |

## Left out

- gni-to-cmake.py: imports of other files, comments, indentation and blank lines, scopes and array elements as targets, and what CMake does with `foreach`; the written form of `foreach` is modelled.
- gni-to-cmake.py: the passes overwrite the tree in place; they are modelled on values, so sharing of subtrees is not captured.
- CMake: escapes, bracket arguments, `@` references and environment variables; of the tests of `if` only those the converter writes have a meaning, and of its numbers only digits and the words for infinity and not-a-number.
- GN: string interpolation and escapes, integers, and comparison of flags; a program that uses them has no meaning in the model.
- run_code_generation.py: generators without hashes, and the text of the messages; hashes are taken to be injective.  The subprocess calls are functions: a script answers from the file tree, a generator produces from its name and the files it lists.  A script lists no file in one run as a source and in another as an output.
- CodeGenerationSound.VerifySound: a declared output that the generator does not write only has to exist, because the script hashes whatever is there.
- generate_android_bp.py: `whole_static_libs` and `header_libs`, targets without dependency lists, name and path helpers, and the text that is written.
- generate_entry_points.py: context and share-group locks, GL and CL entry points, and freedom from deadlock; locks are plain mutexes.
- EglWindow.Window.CreateContext: the call the window makes for its own context, without a shared context or extra attributes, with the result stored at once; the list with extra attributes is `EglContextAttributes.WriteAttributes`.
- EglWindow.Session: a client initializes only what is missing; initializing a display over a live one, which would leak it, is outside the statement.
- EGLWindow.cpp: display and surface attribute lists, `FindEGLConfig` (whose comment has its two results the wrong way round), feature queries, images, syncs and pbuffers.
- Matrix.cpp: rounding, `rotate`, `perspective`, `frustum`, `ortho` and `transform`, which need trigonometry or vector normalization or are single expressions.
- ExportTargets.GatherLibraries: whether the includes of a target are in order is an arbitrary predicate; the check that reads the files is not modelled.
- ExportTargets.Export: likewise.
- export_targets.py: the text of the include check, and the optional callback after a key's successors, which no caller uses.
- registry_xml.py: `sources_by_command_no_suffix`, the classification of extensions by a substring of their attribute, and XML lookup.
- gen_gl_enum_utils.py: the printed form of the tables.
- EnumTables.ToValue: a name that sorts after the last entry makes the C++ code look one past the end, which the model reports as not found.
- geometry_utils.cpp: the trigonometry of the directions, and the cube.
- PRESUBMIT.py: the regular expressions that find paragraphs and Change-Id lines, and all other presubmit checks.
- CaptureTypes.TypeGivenBack: the base is an identifier that begins with GL or EGL or contains void and has none of the words the encoding uses; types with a namespace, callbacks and `unsigned char` are not covered.
