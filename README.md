# A model of the test-generate-and-repair loop

The repository drives a language model through a loop that repairs Python code:

- **Generating tests.** `unittest_flow` asks the model for an explanation of a function, then a plan of test scenarios, and then test code. It extracts the first fenced Python block of the reply. It may patch in `import sys`. It reruns itself while the code does not parse and reruns are left. It writes the result to `tests/unit/test_functions.py`.
- **Collecting failures.** `run_pytest` runs the tests, and `extract_failed_test_cases` pairs each failed case with its error message.
- **Correcting.** `correct_function` asks for a corrected function and writes it back to the source file.
- **The main loop.** Several drafts of the loop in `main` decide, after each failing run, whether to correct the function again or regenerate the tests. They count how often the failed cases repeat.
- **Fixtures.** The repair is run on two small programs: three versions of an `InventoryManager` class and two versions of `pig_latin`.

The model is split into one Dafny module per part:

| module | what it holds |
|---|---|
| `Wrappers` | `Option` and `Result` |
| `PyStr` | the Python string operations the core relies on, with their laws |
| `Synthesis` | the text handling of `unittest_flow`, `correct_function` and `extract_failed_test_cases` |
| `TestFlow` | the class `UnitTestFlow` |
| `Disk` | files as a map from path to contents |
| `Locator` | `find_class_or_method` and `read_class_or_method` |
| `Controller` | the shared observation, trace and `run_pytest` result types, and the temperatures |
| `MainLoop`, `Asdf1Loop`, `Asdf2Loop`, `BuildAsdf2Loop`, `EnvAsdf1Loop` | one module per draft of the loop |
| `Inventory`, `InventoryOriginal`, `InventoryValidated` | one module per inventory version |
| `PigLatinBuild`, `PigLatinSrc` | one module per pig-latin version |

Each loop is a method whose `while` or `for` loop follows the source statement by statement. Each is proved equal to a specification function over a finite list of observations. One observation is:

- pytest's return code;
- the extracted failed cases;
- the model's correction reply.

The language-model service, pytest, the regular-expression engine and `ast.parse` are inputs: reply strings, observations, and functions passed as parameters. File writes update a map held by a `FileStore` object. Temperatures are exact rationals.

## Model

| member | source | states |
|---|---|---|
| MainLoop.RunMain | build/lib/src/__main__.py:156-220 | the `while idx > 0` loop of `main` produces exactly the events and the outcome of the loop specification `Run` from the initial state (idx 3, counter 0, no previous failures) |
| MainLoop.StepKeepsInv | build/lib/src/__main__.py:179-220 | from the loop invariant, an iteration never raises NameError, stops exactly on a passing run, keeps the invariant, regenerates only at a count of 3 with temperature 1.0 from the current function, and corrects only at a count of at most 2 with temperature at most 0.6 |
| MainLoop.CounterUpdate | build/lib/src/__main__.py:183-204 | a failing run increments the counter exactly when its failed cases equal the remembered ones; a regeneration happens exactly on the third repeat and resets the counter; a correction remembers the new failed cases |
| MainLoop.RunFromInv | build/lib/src/__main__.py:172-220 | the loop ends only on the first passing run; otherwise it consumes every observation; every regeneration runs at temperature 1.0 and every correction at most 0.6; NameError never occurs |
| MainLoop.MainRun | build/lib/src/__main__.py:156-220 | from the start, the loop ends by passing exactly when some observation passes, and never raises NameError; no iteration reaches the unbound `corrected_function` |
| MainLoop.RepeatedFailuresRegenerate | build/lib/src/__main__.py:183-205 | failing runs that keep reporting the remembered failed cases correct with a counter rising by one each time, then regenerate when it reaches 3 |
| Controller.CorrectionTemperatureBounds | build/lib/src/__main__.py:215 | the correction temperature stays between 0.4 and 0.6 for counters 0 to 2 |
| Controller.RegenerationAtMaximum | build/lib/src/__main__.py:201 | a regeneration at the maximum count has temperature 1.0 |
| Controller.FirstPass | build/lib/src/__main__.py:179-181 | the index of the first passing observation: it passes, and every earlier one fails; None means that none passes |
| Asdf1Loop.RunAsdf1 | src/asdf1.py:1-54 | the draft loop produces exactly the events and the outcome of its specification `Loop` |
| Asdf1Loop.PassIgnoresFailures | src/asdf1.py:11-13 | a passing run stops the iteration whatever failed cases are extracted |
| Asdf1Loop.IterationAgreesWithMain | src/asdf1.py:17-39 | with a counter of at most 2, the draft's `==` test takes the same branch as the `>` test of `main`, and the counter stays at most 3 |
| Asdf1Loop.LoopAgreesWithMain | src/asdf1.py:7-54 | from every state of `main`'s invariant, the draft behaves exactly like `main` |
| Asdf1Loop.Asdf1Run | src/asdf1.py:1-54 | from the start, the draft ends by passing exactly when some observation passes, never raises NameError, and ends with a counter of at most 2 |
| Asdf1Loop.EqualityTestMissesLargerCounts | src/asdf1.py:24 | outside the invariant, the two tests differ: at a count of 3 before the increment, the draft corrects where `main` regenerates |
| Asdf2Loop.RunAsdf2 | src/asdf2.py:1-41 | the fragment produces exactly the events and the outcome of its specification `Run` |
| Asdf2Loop.StepBounds | src/asdf2.py:5-32 | an iteration keeps the counter below `max_attempts` and leaves the previous failed cases unchanged; it counts a run exactly when the extracted result equals the previous failed cases; it resets at 3 and regenerates from the original function on every failing run |
| Asdf2Loop.RunBounds | src/asdf2.py:5-34 | the loop never exits through its guard, ends exactly on a passing run, never updates the previous failed cases, and regenerates on every failing run |
| Asdf2Loop.ListsNeverCount | src/asdf2.py:1-13 | when the extractor always returns a list, nothing equals the initial None, so the counter stays 0 and every regeneration runs at temperature 0.4 |
| BuildAsdf2Loop.RunBuildAsdf2 | build/lib/src/asdf2.py:76-127 | the three-iteration loop produces exactly the events, the outcome and the final `tests_changed` of its specification `Run`, for either result of `run_pytest`: the repository's dict, whose unpacking raises ValueError, or the intended pair |
| BuildAsdf2Loop.UnpackingRaises | build/lib/src/asdf2.py:90-92 | as written, the first iteration raises ValueError unpacking the dict the repository's `run_pytest` returns, before any test result is looked at, whatever the observations |
| BuildAsdf2Loop.NeverUnchanged | build/lib/src/asdf2.py:76-127 | in the intended program, with `previous_failed_cases` None, the loop never stops on unchanged failed cases and raises nothing, `tests_changed` never changes, and every failing iteration corrects |
| BuildAsdf2Loop.RunLength | build/lib/src/asdf2.py:90-97 | in the intended program, at most three iterations, one observation each; only the first passing run stops the loop early |
| BuildAsdf2Loop.CorrectionsChain | build/lib/src/asdf2.py:107-127 | in the intended program, the k-th correction is made from the (k-1)-th corrected function, and the first one from the function read at the start |
| BuildAsdf2Loop.BuildAsdf2Run | build/lib/src/asdf2.py:76-129 | from the start of the intended program, where `run_pytest` gives the pair the unpacking expects: at most three iterations, no stop on unchanged failed cases, no exception, `tests_changed` still true, and a pass exactly when one of the first three observations passes |
| EnvAsdf1Loop.RunEnvAsdf1 | env/lib/python3.12/site-packages/src/asdf1.py:39-83 | the loop produces exactly the events and the outcome of its specification `Run`, for every value of the `print_text` argument and either result of `run_pytest`, and logs the notice exactly when it stopped on unchanged failed cases |
| EnvAsdf1Loop.FalseIsUnbound | env/lib/python3.12/site-packages/src/asdf1.py:44-53 | as written, the first iteration raises NameError before generating anything, whatever the observations and whatever `run_pytest` returns |
| EnvAsdf1Loop.UnpackingRaises | env/lib/python3.12/site-packages/src/asdf1.py:44-54 | with `False` restored, the first iteration generates tests from the initial function and then raises ValueError unpacking the dict the repository's `run_pytest` returns, whatever the observations |
| EnvAsdf1Loop.StepIntended | env/lib/python3.12/site-packages/src/asdf1.py:44-78 | in the intended program (`print_text=False`, and the pair of return code and output from `run_pytest`), an iteration raises nothing and generates from the current function; it stops exactly on a pass or on failed cases equal to the previous ones, and clears `tests_changed` only in the second case; otherwise it replaces the function and the remembered failed cases |
| EnvAsdf1Loop.RunIntended | env/lib/python3.12/site-packages/src/asdf1.py:42-78 | in the intended program: at most three iterations and no exception; `tests_changed` is cleared exactly when the loop stops on unchanged failed cases |
| EnvAsdf1Loop.SourcesChain | env/lib/python3.12/site-packages/src/asdf1.py:44-77 | each iteration generates tests from the function the previous iteration corrected to, and the first from the initial function |
| EnvAsdf1Loop.StagnationCause | env/lib/python3.12/site-packages/src/asdf1.py:61-67 | a stop on unchanged failed cases happens only when the last run failed with the failed cases of the iteration before |
| EnvAsdf1Loop.RepeatedFailuresStop | env/lib/python3.12/site-packages/src/asdf1.py:61-67 | two failing runs in a row with the same failed cases stop the loop in its second iteration, and the notice is logged |
| EnvAsdf1Loop.EnvAsdf1Run | env/lib/python3.12/site-packages/src/asdf1.py:39-85 | from the start of the intended program (`print_text=False`, and the pair from `run_pytest`): at most three iterations and no exception; the notice is logged only after two consecutive failing runs with the same failed cases, and it is logged whenever some run within the first three iterations fails with the failed cases of the run before it while every run up to it failed |
| EnvAsdf1Loop.StagnatesOnRepeat | env/lib/python3.12/site-packages/src/asdf1.py:54-67 | from any state, if every run up to the n-th fails and the n-th repeats the failed cases of the one before, with iterations to spare, the loop stops on unchanged failed cases |
| EnvAsdf1Loop.EmptyFailuresStagnate | env/lib/python3.12/site-packages/src/asdf1.py:54-78 | in the intended program, where every run's failed cases are `[]`, the loop corrects at most once, in its first iteration; it stagnates exactly when the first two runs fail and passes exactly when one of them passes |
| Synthesis.BulletCountIsLineCount | env/lib/python3.12/site-packages/src/unittest_flow.py:145 | the bullet count is the larger of the number of lines after the first that start with '-' and the number that start with '*'; a first line that starts with a bullet is not counted |
| Synthesis.CountIsLineCount | src/unittest_flow2.py:125 | counting "\n" followed by a character, without overlaps, counts exactly the lines after the first that start with that character |
| Synthesis.AsWrittenBoundIsNegative | env/lib/python3.12/site-packages/src/unittest_flow.py:146-150 | whenever elaboration is requested, the "maximum of" number written into the prompt is negative |
| Synthesis.AsWrittenBoundExample | env/lib/python3.12/site-packages/src/unittest_flow.py:145-150 | the plan "Cases:\n- a" with the default minimum of 7 requests elaboration with a maximum of -6 |
| Synthesis.ElaborationBound | env/lib/python3.12/site-packages/src/unittest_flow.py:150 | the intended bound, the number of missing cases: between 1 and the minimum, and it adds up with the bullet count to the minimum |
| Synthesis.SymbolName | env/lib/python3.12/site-packages/src/unittest_flow.py:203 | the symbol imported by the tests never contains '(' |
| Synthesis.LastPieceOfSplit | env/lib/python3.12/site-packages/src/unittest_flow.py:203 | the text after the last separator is the last element of the list `split` returns |
| Synthesis.LastPieceAfterSeparator | env/lib/python3.12/site-packages/src/unittest_flow.py:203 | the last piece after a one-character separator ignores everything up to that separator |
| Synthesis.ModuleNameOfFile | env/lib/python3.12/site-packages/src/unittest_flow.py:203 | for a bare file `stem.py`, where the stem holds neither '/' nor ".py", the module name is the stem |
| Synthesis.ModuleNameOfPath | src/unittest_flow2.py:179 | for a path `dir/stem.py`, where the stem holds neither '/' nor ".py", the module name is the stem |
| Synthesis.ModuleNameOfJoin | build/lib/src/__main__.py:84-85 | the path `read_class_or_method` builds with `os.path.join(dir, "stem.py")`, later passed on as `function_filename`, names the module `stem` whatever the directory |
| Synthesis.SymbolNameOfCall | src/unittest_flow2.py:179 | for `name(args...`, where `name` holds no '(', the imported symbol is `name` stripped |
| Synthesis.ImportLineOf | src/unittest_flow2.py:179 | the import line the tests must start with is `from src.<stem> import <name>` |
| Synthesis.ExtractFence | env/lib/python3.12/site-packages/src/unittest_flow.py:254 | extraction raises IndexError exactly when the reply holds no "```python" |
| Synthesis.ExtractedBlockIsClean | env/lib/python3.12/site-packages/src/unittest_flow.py:254 | an extracted block contains no fence and is already stripped |
| Synthesis.ExtractFenceOfReply | env/lib/python3.12/site-packages/src/unittest_flow.py:254 | a reply `pre` + "```python" + `body` + "```" + `post`, with no opening marker in `pre`, no backtick in `body`, and a `post` that does not start with a backtick, yields `body` stripped |
| Synthesis.TickAfterClosingFence | env/lib/python3.12/site-packages/src/unittest_flow.py:254 | the condition on `post` is needed: with a backtick right after the closing fence, a second opening marker starts inside it, and the extracted text keeps a stray backtick, so it differs from the stripped body |
| Synthesis.PatchSys | env/lib/python3.12/site-packages/src/unittest_flow.py:257-258 | the patch either leaves the code alone or prefixes exactly "import sys\n" |
| Synthesis.PatchSysImports | env/lib/python3.12/site-packages/src/unittest_flow.py:257-258 | after the patch, code that mentions "sys" contains "import sys" |
| Synthesis.PatchSysIdempotent | env/lib/python3.12/site-packages/src/unittest_flow.py:257-258 | patching twice is the same as patching once |
| Synthesis.PrepareReply | env/lib/python3.12/site-packages/src/unittest_flow.py:254-258 | one round fails exactly when the reply holds no Python fence |
| Synthesis.Regenerate | env/lib/python3.12/site-packages/src/unittest_flow.py:260-278 | the rerun recursion uses at least one round and at most `1 + reruns_if_fail` rounds |
| Synthesis.RegenerateOutcome | env/lib/python3.12/site-packages/src/unittest_flow.py:254-290 | every round before the last produced code that does not parse; the call raises exactly when the last round had no fence; written code comes from the last round and parses unless the reruns ran out |
| Synthesis.GenerateTests | src/unittest_flow2.py:219-250 | a call uses between 1 and `1 + reruns_if_fail` replies |
| Synthesis.GenerateTestsOutcome | src/unittest_flow2.py:219-250 | the same outcome guarantee stated for the reply stream of `unittest_flow`: raise exactly when the last reply has no fence, rerun only on unparsable code, and write unparsable code only when the reruns ran out |
| Synthesis.GenerateTestsFirstTry | env/lib/python3.12/site-packages/src/unittest_flow.py:254-290 | a first reply with a fence around parsable code is written at once, after one round |
| Synthesis.WrittenCodeIsClean | env/lib/python3.12/site-packages/src/unittest_flow.py:254-290 | written test code imports `sys` whenever it mentions it (the draft that patches), or holds no fence (the draft that does not patch) |
| Synthesis.UnittestFlow | env/lib/python3.12/site-packages/src/unittest_flow.py:254-290 | the only file written is the test module, and only when generation succeeds; on IndexError the files are unchanged |
| Synthesis.CorrectedFunction | env/lib/python3.12/site-packages/src/unittest_flow.py:414-422 | a reply without a Python fence falls back to the original function; otherwise the result is the extracted, fence-free block |
| Synthesis.CorrectFunction | env/lib/python3.12/site-packages/src/unittest_flow.py:414-431 | returns the corrected function and the path `src/<function_filename>`, and replaces exactly that file with it |
| Synthesis.CorrectFunctionStrict | src/unittest_flow2.py:282-299 | a reply without a fence raises IndexError and writes nothing; otherwise the block is written to `src/<function_filename>` and returned with that path |
| Synthesis.FallbackAgreesWithStrict | src/unittest_flow2.py:282-287 | the draft with the fallback and the draft without it agree on every reply that has a fence |
| Synthesis.FailureEntry | env/lib/python3.12/site-packages/src/unittest_flow.py:458 | every entry starts with "Test case: " |
| Synthesis.PairFailures | env/lib/python3.12/site-packages/src/unittest_flow.py:457-460 | one entry per pair: as many entries as the shorter of the two match lists |
| Synthesis.ExtractFailedTestCases | env/lib/python3.12/site-packages/src/unittest_flow.py:442-465 | a result without "stdout" gives []; otherwise entry k pairs the k-th failed case with the k-th error message, up to the shorter list |
| Synthesis.CollectStream | env/lib/python3.12/site-packages/src/unittest_flow.py:95-101 | on a stream of chunks, the streaming loop accumulates exactly their content pieces, in order; every request passes `stream=False`, so the branch never meets such a stream |
| Synthesis.ExecuteMessages | env/lib/python3.12/site-packages/src/unittest_flow.py:221-230 | the test-code request starts with the execute system message, the explain request and its reply, and the plan request and its reply, in that order, and ends with the execute user message, with user and assistant turns alternating between them; it has 8 turns with the elaboration exchange at turns 5 and 6, and 6 turns without it |
| TestFlow.UnitTestFlow.constructor | src/unittest_flow.py:34-58 | every setting is stored as given, and there is no pytest result yet |
| TestFlow.UnitTestFlow.RunPytest | src/unittest_flow.py:77-86 | pytest's result is remembered and returned; only the remembered result may change |
| TestFlow.UnitTestFlow.UpdateFunctionInFile | src/unittest_flow.py:119-130 | the text replaces exactly the source file, unchanged |
| TestFlow.UnitTestFlow.CorrectFunction | src/unittest_flow.py:98-117 | the service's whole reply replaces the source file |
| TestFlow.UnitTestFlow.WriteTests | src/unittest_flow.py:168-176 | a reply without "```python" raises IndexError and writes nothing; otherwise its first block replaces the test module, whose path is returned |
| TestFlow.UnitTestFlow.Run | src/unittest_flow.py:60-75 | the tests are written and run; the source file is replaced by the correction exactly when pytest failed and printed output; the test path is returned unless writing the tests raised; of the object only the remembered pytest result may change |
| TestFlow.ImportLineOfFlow | src/unittest_flow.py:215 | for `dir/stem.py` and `name(...)`, the object's import line is `from src.<stem> import <name>` |
| TestFlow.TestsAndSourceAreDistinct | src/unittest_flow.py:127-172 | the path string of the test module that `run` writes differs from the path string "src/" + file name of the source it corrects |
| Disk.PathJoin | env/lib/python3.12/site-packages/src/unittest_flow.py:424-426 | like POSIX `os.path.join`: an absolute name replaces the base; a relative name ends the result, under the base, with a '/' just before it whenever the base is not empty, and no '/' is doubled at the seam |
| Disk.FileStore.Write | env/lib/python3.12/site-packages/src/unittest_flow.py:428-429 | the file at the path is replaced and every other file is kept |
| Locator.FirstNamed | build/lib/src/__main__.py:56-58 | the chosen class is in the list and carries the name; None means that no class in the list carries it |
| Locator.FirstNamedAppend | build/lib/src/__main__.py:60-68 | searching a concatenation finds the first list's match before the second's |
| Locator.FindIsFirstInPreorder | build/lib/src/__main__.py:39-69 | for an unparser that never turns a class into the empty string, the search returns the unparsed first class with that name in pre-order through modules and classes, and None when there is none |
| Locator.FindInBodyIsFirst | build/lib/src/__main__.py:60-68 | for such an unparser, the body loop from position i finds the first such class among the subtrees from i on |
| Locator.FunctionsAreNeverFound | build/lib/src/__main__.py:56-69 | only classes are found: a module of functions yields None whatever their names |
| Locator.FunctionBodiesSkipped | build/lib/src/__main__.py:64-69 | the module loop skips every function definition |
| Locator.ReadClassOrMethod | build/lib/src/__main__.py:72-112 | IOError exactly when the file cannot be read, SyntaxError exactly when it does not parse, ValueError exactly when no class is found; otherwise the found source and `os.path.join(dir, source_file)` |
| Inventory.Add | src/inventory_manager.py:8-25 | refuses a quantity that is not a non-negative number, with its message; otherwise adds the quantity to the stored one (0 when absent) and keeps every other item |
| Inventory.Remove | src/inventory_manager.py:27-47 | the three refusals, in their order and each exactly when it applies; otherwise subtracts from the stored quantity, keeping the key and every other item |
| Inventory.InventoryManager.constructor | src/inventory_manager.py:2-6 | the inventory starts empty |
| Inventory.InventoryManager.AddItem | src/inventory_manager.py:8-25 | a refused call changes nothing; an accepted one makes the inventory that of `Add` |
| Inventory.InventoryManager.RemoveItem | src/inventory_manager.py:27-47 | a refused call changes nothing; an accepted one makes the inventory that of `Remove` |
| Inventory.InventoryManager.CheckInventory | src/inventory_manager.py:49-59 | the stored quantity, or 0 for an absent item |
| Inventory.AddRemoveKeepNonNegative | src/inventory_manager.py:19-47 | adding and removing keep every quantity non-negative |
| Inventory.RemoveUndoesAdd | src/inventory_manager.py:8-47 | removing what was just added restores the inventory, except that an absent item stays with quantity 0 |
| Inventory.CheckedInTests | tests/unit/test_functions.py:13-54 | the checked-in tests hold: added quantities are reported, a negative quantity is refused, removing everything leaves 0, a missing item and an insufficient stock are refused |
| InventoryOriginal.Add | build/lib/src/inventory_manager_original.py:8-24 | refuses exactly a negative quantity; otherwise adds to the stored quantity and keeps every other item |
| InventoryOriginal.Remove | build/lib/src/inventory_manager_original.py:26-43 | refuses a negative quantity, and with one message an absent item or a short stock; otherwise subtracts, deleting the key when the quantity reaches 0 |
| InventoryOriginal.InventoryManager.constructor | build/lib/src/inventory_manager_original.py:2-6 | the inventory starts empty |
| InventoryOriginal.InventoryManager.AddItem | build/lib/src/inventory_manager_original.py:8-24 | a refused call changes nothing; an accepted one makes the inventory that of `Add` |
| InventoryOriginal.InventoryManager.RemoveItem | build/lib/src/inventory_manager_original.py:26-43 | a refused call changes nothing; an accepted one makes the inventory that of `Remove` |
| InventoryOriginal.InventoryManager.CheckInventory | build/lib/src/inventory_manager_original.py:45-55 | the stored quantity, or 0 for an absent item |
| InventoryOriginal.RemovedIsAbsentOrPositive | build/lib/src/inventory_manager_original.py:41-43 | after a removal the item is absent or still in stock, and every other item is as before |
| InventoryOriginal.RemoveUndoesAdd | build/lib/src/inventory_manager_original.py:8-43 | removing what was just added restores the inventory exactly, except that an item stored with quantity 0 disappears |
| InventoryOriginal.PigLatinKeepsWords | build/lib/src/inventory_manager_original.py:58-74 | the result has one word per word of the lower-cased text, each its translation |
| InventoryValidated.Validate | env/lib/python3.12/site-packages/src/inventory_manager.py:20-36 | each of the first three refusals happens exactly when its check is the first to fail; the call is accepted exactly when the quantity is a non-negative integer and the name a valid one |
| InventoryValidated.InventoryManager.constructor | env/lib/python3.12/site-packages/src/inventory_manager.py:2-6 | the inventory starts empty |
| InventoryValidated.InventoryManager.AddItem | env/lib/python3.12/site-packages/src/inventory_manager.py:8-42 | a refused call raises the validation error and changes nothing; an accepted one adds to the stored quantity or creates the key |
| InventoryValidated.AcceptedKeepsKeys | env/lib/python3.12/site-packages/src/inventory_manager.py:20-42 | accepted calls keep every key a valid name and every quantity non-negative |
| InventoryValidated.Boundaries | env/lib/python3.12/site-packages/src/inventory_manager.py:32-33 | a 1000-character name with quantity 0 is accepted; a 1001-character one is refused as too long |
| PigLatinBuild.ConsonantsAreLongest | build/lib/src/pig_latin.py:10-15 | the consonant loop stops at the first vowel: no vowel before it, and a vowel at it unless the word ended |
| PigLatinBuild.Translate | build/lib/src/pig_latin.py:5-16 | `translate` returns the translation `Translation` |
| PigLatinBuild.TranslationAt | build/lib/src/pig_latin.py:5-16 | given the position of the first vowel: "way" is appended when it is 0, otherwise the word is rotated to start there and "ay" is appended |
| PigLatinBuild.TranslationRotates | build/lib/src/pig_latin.py:9-16 | a word starting with a consonant is rotated at its first vowel (or kept when it has none) and gets "ay" |
| PigLatinBuild.TranslationWithoutVowel | build/lib/src/pig_latin.py:9-16 | a word without a vowel only gets "ay" |
| PigLatinBuild.TranslationLetters | build/lib/src/pig_latin.py:5-16 | the translation holds the word's characters plus those of "way" or "ay" |
| PigLatinBuild.TranslationIsWord | build/lib/src/pig_latin.py:5-16 | a word translates to a word |
| PigLatinBuild.LettersAreLongest | build/lib/src/pig_latin.py:19 | group 1 is the longest run of letters at the start |
| PigLatinBuild.NonLettersAreLongest | build/lib/src/pig_latin.py:19 | group 2 is the longest run of non-letters after group 1 |
| PigLatinBuild.WithPunctuationKeeps | build/lib/src/pig_latin.py:19-23 | a word that does not start with a letter is kept |
| PigLatinBuild.WithPunctuationOf | build/lib/src/pig_latin.py:19-22 | a word starting with letters gives the translation of those letters followed by the non-letters after them |
| PigLatinBuild.LettersThenMarks | build/lib/src/pig_latin.py:18-23 | letters followed only by non-letters: the letters are translated and the non-letters kept |
| PigLatinBuild.DropsAfterApostrophe | build/lib/src/pig_latin.py:19-22 | "don't" becomes "onday'": the characters after the first run of non-letters are dropped |
| PigLatinBuild.WithPunctuationIsWord | build/lib/src/pig_latin.py:18-23 | a word translates to a word |
| PigLatinBuild.PigLatinKeepsWords | build/lib/src/pig_latin.py:25-27 | the result has one word per word of the text, each translated at the same position |
| PigLatinBuild.PigLatinOfJoin | build/lib/src/pig_latin.py:25-27 | words joined by single spaces translate one by one |
| PigLatinBuild.CheckedInWords | build/lib/src/pig_latin.py:31-34 | the file's asserts on single words hold, together with "world!" |
| PigLatinBuild.CheckedInText | build/lib/src/pig_latin.py:35 | "hello world!" becomes "ellohay orldway!" |
| PigLatinSrc.LeadingPunctIsLongest | src/pig_latin.py:15-18 | the first loop peels exactly the longest run of leading punctuation |
| PigLatinSrc.TrailingPunctIsLongest | src/pig_latin.py:20-23 | the second loop peels exactly the longest run of trailing punctuation |
| PigLatinSrc.FirstVowel | src/pig_latin.py:36-40 | the index of the first vowel (either case): no vowel before it, and a vowel at it unless it is the length |
| PigLatinSrc.PeelPunctuation | src/pig_latin.py:15-23 | the two loops produce the leading punctuation, the core and the trailing punctuation of `Peel` |
| PigLatinSrc.TranslateWord | src/pig_latin.py:13-47 | `translate_word` returns the translation `Translation` |
| PigLatinSrc.PeelSplits | src/pig_latin.py:15-23 | the three parts concatenate to the word; prefix and suffix are punctuation; a non-empty core neither starts nor ends with punctuation |
| PigLatinSrc.PeelOf | src/pig_latin.py:15-23 | any split into longest leading punctuation, middle and longest trailing punctuation is the peel |
| PigLatinSrc.PunctuationOnly | src/pig_latin.py:25-26 | a word of punctuation only is returned unchanged |
| PigLatinSrc.TranslationWithDigit | src/pig_latin.py:28-29 | a core with a digit is kept and gets "way" after the trailing punctuation |
| PigLatinSrc.TranslationVowelFirst | src/pig_latin.py:32-33 | a vowel-initial core gets "way" before the trailing punctuation |
| PigLatinSrc.TranslationWithoutVowel | src/pig_latin.py:43-44 | a core without digits or vowels gets "way" after the trailing punctuation |
| PigLatinSrc.TranslationRotates | src/pig_latin.py:45-47 | a consonant-initial core is rotated at its first vowel and gets "ay", inside the punctuation |
| PigLatinSrc.TranslationForms | src/pig_latin.py:25-47 | every translation has one of the four forms above |
| PigLatinSrc.TranslationIsWord | src/pig_latin.py:13-47 | a word translates to a word |
| PigLatinSrc.PigLatinKeepsWords | src/pig_latin.py:49 | the result has one word per word of the text, each translated at the same position |
| PyStr.Find | env/lib/python3.12/site-packages/src/unittest_flow.py:257 | a found index is an occurrence of the pattern |
| PyStr.FindFirst | env/lib/python3.12/site-packages/src/unittest_flow.py:257 | find returns the first occurrence: any occurrence lies at or after it |
| PyStr.ContainsWitness | env/lib/python3.12/site-packages/src/unittest_flow.py:257 | an occurrence of the pattern anywhere makes `in` true (with `Find`, the two directions of `in`) |
| PyStr.Split | env/lib/python3.12/site-packages/src/unittest_flow.py:254 | `split` returns at least one piece |
| PyStr.SplitJoin | env/lib/python3.12/site-packages/src/unittest_flow.py:254 | joining the pieces of a split with the separator gives back the text |
| PyStr.SplitPiecesFree | env/lib/python3.12/site-packages/src/unittest_flow.py:254 | no piece of a split contains the separator |
| PyStr.ReplaceIsJoinOfSplit | env/lib/python3.12/site-packages/src/unittest_flow.py:203 | `replace(t, u)` is the split on t joined with u |
| PyStr.StripIsSlice | env/lib/python3.12/site-packages/src/unittest_flow.py:254 | `strip` returns a slice of its argument |
| PyStr.StripTrimmed | env/lib/python3.12/site-packages/src/unittest_flow.py:254 | a text that neither starts nor ends with whitespace is its own strip |
| PyStr.StripIdempotent | env/lib/python3.12/site-packages/src/unittest_flow.py:254 | stripping twice is stripping once |
| PyStr.Words | build/lib/src/pig_latin.py:25 | `split()` returns non-empty pieces without whitespace |
| PyStr.WordsOfJoin | build/lib/src/pig_latin.py:25-27 | splitting words joined by single spaces gives back the words |
| PyStr.Lower | build/lib/src/inventory_manager_original.py:72 | lower-casing keeps the length, maps each ASCII capital to its lower-case letter, and keeps every other character |

## Left out

- The language-model service is not modelled. Its replies are inputs: one string per request, or a stream of replies for the reruns. The explanation and plan requests are left out except for the plan's bullet count and the layout of the test-code request.
- Pytest and `subprocess.run` are left out. Their result is an input observation. The `CalledProcessError` branches are not modelled: `subprocess.run` without `check=True` does not raise that error.
- Regular-expression matching in `extract_failed_test_cases` is left out. The two `re.findall` results are input functions.
- `ast.parse` and `ast.unparse` are left out. They are inputs: a parse predicate or function, and an unparse function. The syntax tree keeps only modules, classes and functions with their names and bodies.
- Directory creation, the working directory, logging, printing and colour prefixes are left out. They do not influence what is written or returned.
- Floating-point temperatures become exact rationals.
- Float quantities in `src/inventory_manager.py` are not modelled: a value is an integer, a string, or something else.
- `str.isalnum`, `str.isdigit` and the whitespace of `split()` are modelled for ASCII only. So is the lower-casing in `pig_latin`.
- The `except Exception` around the dictionary update in the installed `inventory_manager.py` is left out. It cannot be reached for a `str` key and an `int` quantity.
- Every loop runs over a finite list of observations. Running out of observations is an extra outcome. The model does not state the behaviour of a loop that would go on forever.
- Free names in the loop fragments become inputs: `src/asdf1.py`, `src/asdf2.py`, and the models of `main`. The `run_pytest` of `src/unittest_flow2.py` returns only the code; the loops take the observation's code.
- What `run_pytest` returns to the two loops that unpack it (`env/lib/python3.12/site-packages/src/asdf1.py:54`, `build/lib/src/asdf2.py:92`) is an input: the three-key dict of the repository's only module-level `run_pytest` of `src.unittest_flow` (`env/lib/python3.12/site-packages/src/unittest_flow.py:303-307`), or the intended pair of return code and output. The lemmas about those loops other than `UnpackingRaises` and `FalseIsUnbound` describe the intended pair.
- The generation calls inside the loops (`unittest_flow` in `main`, in `build/lib/src/asdf2.py` and in the installed `asdf1.py`; `test_flow.run()` in `src/asdf2.py`) are taken to return. They raise IndexError on a reply without a Python fence; `Synthesis.UnittestFlow` and `Synthesis.RegenerateOutcome` state when. The loop members below therefore promise no exception other than that one:
- MainLoop.MainRun: "never raises NameError" assumes each regeneration returns.
- MainLoop.RunFromInv: "NameError never occurs" assumes each regeneration returns.
- Asdf1Loop.Asdf1Run: "never raises NameError" assumes each regeneration returns.
- BuildAsdf2Loop.NeverUnchanged: "raises nothing" assumes each regeneration returns.
- BuildAsdf2Loop.BuildAsdf2Run: "no exception" assumes each regeneration returns.
- EnvAsdf1Loop.StepIntended: "raises nothing" assumes the generation returns.
- EnvAsdf1Loop.RunIntended: "no exception" assumes each generation returns.
- EnvAsdf1Loop.EnvAsdf1Run: "no exception" assumes each generation returns.
- EnvAsdf1Loop.EnvAsdf1Run leaves each run's failed cases free. In the intended program `extract_failed_test_cases` receives the stdout string, and its `except Exception` turns the failing `["stdout"]` lookup into `[]`; EnvAsdf1Loop.EmptyFailuresStagnate states what the loop then does.
- Synthesis.CollectStream models the streaming branch on a genuine stream of chunks. As written every request passes `stream=False`, so with `stream=True` the branch would iterate over a complete reply object, which is not modelled.
- `build/lib/src/unittest_flow.py` and `build/lib/src/asdf1.py` are not part of this model.
- Inventory.RemoveUndoesAdd and InventoryOriginal.RemoveUndoesAdd require a non-negative stored quantity, which is what `add_item` guarantees. They do not describe an inventory corrupted from outside.
- InventoryOriginal.PigLatinKeepsWords relates the result to the words of the lower-cased text, not the original text.

## Findings

| source | as written | input that shows it | evidently intended | confidence | as-written member | corrected member |
|---|---|---|---|---|---|---|
| env/lib/python3.12/site-packages/src/unittest_flow.py:150 | the elaboration prompt asks for "a maximum of {num_bullets-approx_min_cases_to_cover}" further cases, which is negative whenever elaboration is requested | plan "Cases:\n- a" with `approx_min_cases_to_cover=7` asks for "a maximum of -6" | ask for `approx_min_cases_to_cover - num_bullets` further cases, at least 1 | not executed | Synthesis.AsWrittenBoundExample | Synthesis.ElaborationBound |
| env/lib/python3.12/site-packages/src/asdf1.py:49 | `print_text=FALSE` names an unbound variable, so the first call's arguments raise NameError | any observations: the loop raises in its first iteration before generating tests | `print_text=False`; the corrected member also assumes the fix of the next row | not executed | EnvAsdf1Loop.FalseIsUnbound | EnvAsdf1Loop.EnvAsdf1Run |
| env/lib/python3.12/site-packages/src/asdf1.py:54 | `test_result, test_output = run_pytest(test_file)` unpacks the three-key dict `run_pytest` returns, so it raises ValueError | any observations: with `False` restored, the first iteration raises right after generating tests | unpack the dict's "returncode" and "stdout" | not executed | EnvAsdf1Loop.UnpackingRaises | EnvAsdf1Loop.EnvAsdf1Run |
| build/lib/src/asdf2.py:92 | `test_result, test_output = run_pytest(test_file)` unpacks the three-key dict `run_pytest` returns, so it raises ValueError | any observations: the first iteration raises before looking at any test result | unpack the dict's "returncode" and "stdout" | not executed | BuildAsdf2Loop.UnpackingRaises | BuildAsdf2Loop.BuildAsdf2Run |
