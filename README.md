# gakollm core in Dafny

A model of the core of gakollm, a set of scripts that ask a language model to write,
document or refactor Python code and then check that the model did not change what the
code does. Three parts are modelled:

- The behavioural diff of `stockholm_diff.py`:
  - the token-level comment and docstring stripper;
  - the line normaliser (`prefilter`, `split_for_diff`);
  - the `RemoveDocstrings` AST pass;
  - `str2ast2str`;
  - `diff_python`, which compares the canonical forms of two programs with a zero-context unified diff.
- The helpers of `ellm.py`:
  - the chat messages sent to the model (`DEFAULT_META`, `get_openai_synthesis_prompt`, `decorate_prompt_exec`);
  - `extract_program`, which cuts the program out of the model's answer;
  - the tree edits of `replace_docstring` and `remove_function`.
- The helpers of `header-comment-python-file-with-llm.py`:
  - its chat prompt;
  - its stricter `extract_program`;
  - the language tag taken from the file name.

About the files:

- Python's tree is the datatype `PyAst.Stmt`, a tree of definitions, compound statements,
  expressions and simple statements.
- Exceptions are values of `Outcome.Error`, returned in `Outcome.Result`.
- Python's parser, printer and JSON encoder, and `difflib`'s matcher, are function-typed
  parameters.
- The two loops that work step by step are methods proved against specification
  functions:
  - the token loop of the stripper;
  - the popping loop of `extract_program`.
- The breadth-first walk of `remove_function` is also such a method.

| file | module | models |
|---|---|---|
| text.dfy | Text | `str.split`, `str.join`, the whitespace class, subsequences |
| outcome.dfy | Outcome | exceptions as values |
| pyast.dfy | PyAst | the Python tree and counts over it |
| stripper.dfy | TokenStripper | `remove_comments_and_docstrings` |
| normalize.dfy | LineNormalizer | `prefilter`, `split_for_diff` |
| docstrings.dfy | DocstringRemoval | `RemoveDocstrings` |
| unifieddiff.dfy | UnifiedDiff | `difflib.unified_diff(a, b, n=0)` |
| behavioural.dfy | BehaviouralDiff | `str2ast2str`, `diff_python` |
| delimited.dfy | DelimitedScan | the two fixed regular expressions of `ellm.py` |
| extract.dfy | ProgramExtraction | `extract_program` of `ellm.py` |
| prompts.dfy | Prompts | the chat messages of `ellm.py` |
| header.dfy | HeaderComment | the helpers of the header script |
| docedit.dfy | DocstringEdit | the edit of `replace_docstring` |
| removal.dfy | FunctionRemoval | `remove_function` |

## Model

| member | source | states |
|---|---|---|
| TokenStripper.RemoveCommentsAndDocstrings | stockholm_diff.py:15-67 | The one-pass loop over the token stream writes exactly the pieces of the closed-form specification. The closed form replaces the three loop variables by a look at the previous token. |
| TokenStripper.CommentNeverWritten | stockholm_diff.py:37-38 | A COMMENT token contributes only its padding blanks, never its text. |
| TokenStripper.OtherTokensVerbatim | stockholm_diff.py:62-63 | Any token other than COMMENT or STRING is written verbatim after its padding. |
| TokenStripper.StringRule | stockholm_diff.py:40-52 | A STRING is kept if and only if it is not the first token, follows neither INDENT nor NEWLINE, and does not start in column 0. |
| TokenStripper.PaddingRule | stockholm_diff.py:32-35 | On a new line the padding is the start column. On the same line it is the gap after the previous token's end, never negative. |
| TokenStripper.StrippedIsKeptText | stockholm_diff.py:22-66 | Up to whitespace, the output is the concatenation of the kept tokens' texts in stream order. |
| TokenStripper.KeptTextOfPlainStream | stockholm_diff.py:62-63 | A stream without comments and strings keeps the text of every token. |
| TokenStripper.StrippedPrefix | stockholm_diff.py:22-66 | The output is a stream. The first k tokens alone determine the output up to their last piece, and later tokens only append to it. |
| TokenStripper.SamePrefixSameOutput | stockholm_diff.py:22-66 | Output so far depends only on the tokens read so far. |
| TokenStripper.ModuleDocstringDropped | stockholm_diff.py:50-52 | A module docstring in column 0 is removed, and the next statement keeps its layout. |
| LineNormalizer.TrimLeftShape | stockholm_diff.py:74 | The result is a suffix of the input, does not start with whitespace, and everything dropped is whitespace. |
| LineNormalizer.TrimRightShape | stockholm_diff.py:74 | The result is a prefix of the input, does not end with whitespace, and everything dropped is whitespace. |
| LineNormalizer.PyStripShape | stockholm_diff.py:74 | `strip()` removes only whitespace and leaves none at the ends. It is empty if and only if the line is all whitespace. |
| LineNormalizer.CollapseSpacesShape | stockholm_diff.py:74 | After the substitution, every whitespace character is a single blank with no neighbour of the same kind, and the other text is unchanged. |
| LineNormalizer.PrefilterShape | stockholm_diff.py:70-74 | `prefilter` gives a normalised line (no edge space, no double space, only blanks) with the same non-space text and no newline. |
| LineNormalizer.PrefilterFixpointIff | stockholm_diff.py:70-74 | A line is left unchanged by `prefilter` if and only if it is normalised. |
| LineNormalizer.PrefilterIdempotent | stockholm_diff.py:70-74 | Applying `prefilter` twice is applying it once. |
| LineNormalizer.PrefilterEmptyIff | stockholm_diff.py:70-74 | `prefilter` returns the empty string if and only if the line is whitespace only. |
| LineNormalizer.NormalizeLinesShape | stockholm_diff.py:79 | The kept lines are non-empty and normalised. They are a subsequence of the prefiltered lines, one per non-blank input line. |
| LineNormalizer.SplitForDiffShape | stockholm_diff.py:76-79 | `split_for_diff` keeps normalised non-empty lines, in source order, at most one per newline-separated line. |
| LineNormalizer.NormalizeLinesCount | stockholm_diff.py:78-79 | Exactly one line is kept per line that is not whitespace only: blank lines are the only ones dropped. |
| LineNormalizer.NormalizeLinesAppend | stockholm_diff.py:79 | Normalising distributes over concatenation of line lists. |
| LineNormalizer.BlankLineIgnored | stockholm_diff.py:78-79 | Inserting a whitespace-only line anywhere does not change what is compared. |
| LineNormalizer.NormalizeLinesRespectsPrefilter | stockholm_diff.py:79 | Replacing lines by lines with the same prefiltered text (re-indentation, inner spacing) does not change what is compared. |
| LineNormalizer.SplitForDiffIdempotent | stockholm_diff.py:76-79 | Normalising the joined normalised lines again changes nothing. |
| DocstringRemoval.VisitBodyPointwise | stockholm_diff.py:87 | `generic_visit` visits every statement of a list in place and removes none. |
| DocstringRemoval.OneStatementPerBody | stockholm_diff.py:83-93 | A FunctionDef or ClassDef body loses exactly its leading string expression. Its other statements are visited in order, and a second leading string stays. |
| DocstringRemoval.OneStatementPerModule | stockholm_diff.py:95-99 | The module body loses exactly its leading string expression, and the rest is visited in order. |
| DocstringRemoval.AsyncKeepsDocstring | stockholm_diff.py:81-99 | There is no visitor for `async def`, so it keeps its docstring. |
| DocstringRemoval.VisitKeepsKind | stockholm_diff.py:81-99 | The pass keeps whether a statement is a string expression and whether it is a definition. |
| DocstringRemoval.RemovedCount | stockholm_diff.py:83-93 | A statement loses exactly one string expression per shortened body, at every depth. |
| DocstringRemoval.RemovedCountBody | stockholm_diff.py:87 | A statement list loses one string expression per shortened body. |
| DocstringRemoval.RemovedCountBlocks | stockholm_diff.py:87 | A list of blocks loses one string expression per shortened body. |
| DocstringRemoval.RemovedCountModule | stockholm_diff.py:95-99 | A module loses one string expression per shortened body, its own body included. |
| DocstringRemoval.OnlyStringsRemoved | stockholm_diff.py:83-93 | With every string statement erased, a statement before and after the pass is the same, so nothing else is removed. |
| DocstringRemoval.OnlyStringsRemovedBody | stockholm_diff.py:87 | Nothing but string statements is removed from a statement list. |
| DocstringRemoval.OnlyStringsRemovedBlocks | stockholm_diff.py:87 | Nothing but string statements is removed from a list of blocks. |
| DocstringRemoval.OnlyStringsRemovedModule | stockholm_diff.py:95-99 | Nothing but string statements is removed from a module. |
| DocstringRemoval.NoDocstringNoChange | stockholm_diff.py:83-93 | A statement in which no body starts with a string is left unchanged. |
| DocstringRemoval.NoDocstringNoChangeBody | stockholm_diff.py:87 | A statement list without docstrings is left unchanged. |
| DocstringRemoval.NoDocstringNoChangeBlocks | stockholm_diff.py:87 | A list of blocks without docstrings is left unchanged. |
| DocstringRemoval.NoDocstringNoChangeModule | stockholm_diff.py:95-99 | A module without docstrings is left unchanged. |
| DocstringRemoval.NestedInAsyncCleaned | stockholm_diff.py:87 | A FunctionDef nested in an `async def` is still cleaned, while the `async def` keeps its docstring. |
| UnifiedDiff.FormatRangeParses | stockholm_diff.py:117 | The `@@` range text of a hunk reads back to the start and length it was written from. |
| UnifiedDiff.HunksEmptyIff | stockholm_diff.py:117 | With no context there is a hunk if and only if the edit script changes something. |
| UnifiedDiff.HunksAreSlices | stockholm_diff.py:117 | Every hunk's removed lines are the slice of the first sequence it names, and its added lines the slice of the second. |
| UnifiedDiff.HunksCoverChanges | stockholm_diff.py:117 | Every deleted and every inserted line appears in exactly one hunk, in order. |
| UnifiedDiff.HunksOrdered | stockholm_diff.py:117 | Hunks follow each other. Each starts after the previous one ends, on both sides. |
| UnifiedDiff.DeltaShape | stockholm_diff.py:117 | The delta is empty if and only if nothing changes. Otherwise it is the two file headers followed by the rendered hunks. |
| UnifiedDiff.NoChangeSameSides | stockholm_diff.py:117 | A script that changes nothing produces the sequence it reads. |
| UnifiedDiff.DeltaLinesComeFromScript | stockholm_diff.py:117 | After the headers, the '-' lines of the delta are the deleted lines and the '+' lines the inserted ones, in order. |
| UnifiedDiff.EmptyDeltaIffEqual | stockholm_diff.py:117 | For a valid matcher the delta is empty if and only if the two sides are equal. |
| UnifiedDiff.DeletedIsSubsequence | stockholm_diff.py:117 | The deleted lines are a subsequence of the first side and the inserted lines one of the second. |
| UnifiedDiff.CoarseMatcherIsMatcher | stockholm_diff.py:117 | The two assumptions placed on the matcher can be met, by delete-all-then-insert-all. |
| BehaviouralDiff.CanonicalFormIgnoresDocstrings | stockholm_diff.py:101-107 | Two sources whose trees agree once docstrings are removed have the same canonical print. |
| BehaviouralDiff.DiffPythonErrors | stockholm_diff.py:113-116 | The diff fails if and only if one side does not parse. The error of `before` wins, then that of `after`. |
| BehaviouralDiff.DiffPythonVerdict | stockholm_diff.py:109-118 | For parseable sources the delta is empty if and only if the two canonical forms split into the same normalised lines. |
| BehaviouralDiff.DiffPythonLines | stockholm_diff.py:117 | The '-' lines of a non-empty delta come, in order, from the normalised canonical `before`, and the '+' lines from `after`. |
| BehaviouralDiff.DocstringChangeInvisible | stockholm_diff.py:109-118 | Changing only docstrings produces an empty delta. |
| BehaviouralDiff.ExampleDocstringEdit | stockholm_diff.py:83-87 | Two functions that differ only in their docstring have the same tree once the docstrings are removed. |
| DelimitedScan.FirstAtIsFirst | ellm.py:184 | What the scan finds is an occurrence with none before it, and it finds nothing only when the pattern does not occur at all. |
| DelimitedScan.MatchAtSound | ellm.py:155 | A match opens with the delimiter, captures text that starts after the optional tag, and ends just after the nearest closing delimiter. |
| DelimitedScan.MatchAtExists | ellm.py:155 | A match starts at p if and only if the delimiter is at p and occurs again after it. |
| DelimitedScan.GroupHasNoDelimiter | ellm.py:155 | The lazy group never contains the delimiter. |
| DelimitedScan.FindAllEmptyIff | ellm.py:155 | `re.findall` finds nothing if and only if no delimiter is followed by another. |
| DelimitedScan.FindAllGroupsHaveNoDelimiter | ellm.py:155 | No group found by `findall` contains the delimiter. |
| DelimitedScan.SearchNoneIff | ellm.py:184 | `re.search` finds nothing if and only if no delimiter is followed by another. |
| DelimitedScan.SearchIsFirstOfFindAll | ellm.py:184 | The group found by `re.search` is the first one `re.findall` would return. |
| DelimitedScan.SearchIsFirstPair | ellm.py:181-184 | The triple-quote search in closed form: the text between the first delimiter and the nearest one after it. |
| DelimitedScan.FindAllOfOneBlock | ellm.py:155 | Prose without backticks around one block yields exactly that block's code, with the tag removed. |
| ProgramExtraction.DropTrailingEmpty | ellm.py:149-152 | The kept lines are a prefix of the lines, end with a non-empty line, and everything dropped is empty. |
| ProgramExtraction.Inner | ellm.py:154 | `lines[1:-1]`: all lines but the first and the last, empty for fewer than two lines. |
| ProgramExtraction.PopTrailingEmpty | ellm.py:149-152 | The popping loop leaves exactly the kept lines, and runs out (IndexError) if and only if none is kept. |
| ProgramExtraction.ExtractProgram | ellm.py:146-156 | The method returns what the specification function says: IndexError for a blank answer, the inner lines of a fenced answer, otherwise the joined `findall` groups. |
| ProgramExtraction.KeptThenEmpty | ellm.py:148-152 | The answer's lines are the kept lines followed by the popped empty lines. |
| ProgramExtraction.NothingKeptIff | ellm.py:149-152 | No line is kept if and only if the answer consists of newlines only. |
| ProgramExtraction.ExtractedFailsIff | ellm.py:146-156 | The only error is the IndexError of an answer made of newlines. |
| ProgramExtraction.FencedRoundTrip | ellm.py:153-154 | A fenced block with any tag, followed by blank lines, gives its code back. |
| ProgramExtraction.FencedBody | ellm.py:153-154 | For a fenced answer the result is exactly the text between the first line and the last kept line, and empty for fewer than three kept lines. |
| ProgramExtraction.ProseIsNotFenced | ellm.py:153 | An answer that does not start with a backtick is not treated as fenced. |
| ProgramExtraction.NoBlockNoProgram | ellm.py:155-156 | An unfenced answer without a complete block gives the empty program. |
| ProgramExtraction.OneBlockInProse | ellm.py:155-156 | Prose around one block tagged with `lang` gives the block's code without the tag. |
| Prompts.DefaultMeta | ellm.py:34 | The default metaprompt is one user message holding the prompt. |
| Prompts.SynthesisPrompt | ellm.py:129-131 | A system message with the fixed format instruction, then a user message made of the opening, the encoded prompt and the closing, each at a known place. |
| Prompts.DefaultMetaFlattens | ellm.py:52 | The single-text providers send the prompt unchanged under the default metaprompt. |
| Prompts.DecoratedLayout | ellm.py:126-127 | The flattened synthesis prompt is the system text, a blank, then the user text. The encoded prompt can be read back from a fixed slice. |
| Prompts.DecoratedInjective | ellm.py:126-131 | Two prompts decorate to the same text if and only if their encodings are equal. |
| HeaderComment.ChatPrompt | header-comment-python-file-with-llm.py:96-100 | A system message with the fixed format instruction, then the prompt unchanged as the user message. |
| HeaderComment.ChatPromptUserPart | header-comment-python-file-with-llm.py:99 | The user part equals the default metaprompt of `ellm.py`. |
| HeaderComment.ExtractProgram | header-comment-python-file-with-llm.py:114-121 | Returns what the strict specification says: IndexError for a blank answer, the inner lines of a fenced answer, otherwise an exception carrying the answer. |
| HeaderComment.StrictOutcomes | header-comment-python-file-with-llm.py:114-121 | Three outcomes: IndexError if and only if the answer is blank, the same code as `ellm.py` on success, and the raised answer if and only if it is not fenced. |
| HeaderComment.StrictFencedRoundTrip | header-comment-python-file-with-llm.py:119-120 | A fenced block followed by blank lines gives its code back. |
| HeaderComment.ProseRaises | header-comment-python-file-with-llm.py:121 | Prose around a block raises here, where `ellm.py`'s version returns the block's code. |
| HeaderComment.LangSuffix | header-comment-python-file-with-llm.py:134 | The tag contains no dot. It is the whole name when there is no dot, and otherwise the suffix after a dot. |
| HeaderComment.LangOfName | header-comment-python-file-with-llm.py:134 | The tag of `stem.ext` is `ext`, for any stem. |
| HeaderComment.EchoedBlock | header-comment-python-file-with-llm.py:134-137 | An answer that echoes the prompt's block, tagged with the file's suffix, gives the program back. |
| DocstringEdit.NewDocstring | ellm.py:181-186 | The new docstring is the text between the first `"""` and the nearest one after it, or the whole text when there is no such pair. |
| DocstringEdit.NewDocstringOfQuoted | ellm.py:181-186 | A docstring quoted in prose is cut out without its quotes. |
| DocstringEdit.WithDocstring | ellm.py:198-202 | The body starts with the new docstring. It keeps its length when a docstring was there and grows by one otherwise, and it is unchanged once the leading docstring is dropped. |
| DocstringEdit.TargetEdited | ellm.py:195-202 | A FunctionDef of that name gets the new docstring first, and every other statement keeps its place and order. |
| DocstringEdit.OtherUntouched | ellm.py:194-195 | Any other definition is only rebuilt around its edited children. |
| DocstringEdit.ReplaceKeepsKind | ellm.py:194-202 | The edit keeps every node's kind and name. |
| DocstringEdit.CommentBeforeDocstring | ellm.py:198-202 | A comment before the docstring is a statement, so the new string is inserted before it and the old docstring stays. |
| DocstringEdit.ReplaceDocuments | ellm.py:194-202 | After the walk, every FunctionDef of that name in a statement, at any depth, starts with the new docstring. |
| DocstringEdit.ReplaceDocumentsModule | ellm.py:194-202 | After the walk, every FunctionDef of that name in the module starts with the new docstring. |
| DocstringEdit.NoTargetNoEditModule | ellm.py:194-195 | A module without a FunctionDef of that name is left as it is. |
| DocstringEdit.TargetsKept | ellm.py:194-202 | The edit neither adds nor removes a FunctionDef of that name. |
| DocstringEdit.ReplaceIdempotentModule | ellm.py:194-202 | Replacing the same docstring twice is replacing it once. |
| DocstringEdit.EditInvisibleModule | ellm.py:194-202 | Once docstrings are removed, the edited module is the module it came from. |
| DocstringEdit.EditPassesCheck | ellm.py:205-210 | When the printed program parses back to the edited tree, `diff_python` reports no difference. |
| FunctionRemoval.WalkAndRemove | ellm.py:169-171 | The breadth-first walk, deleting from the module body as it goes, returns the specification's result: ValueError when a nested FunctionDef of that name exists, else the top level without those definitions. |
| FunctionRemoval.RemoveFunction | ellm.py:165-174 | Parse, walk and print: a parse error, the ValueError of the walk, or the printed reduced tree. |
| FunctionRemoval.FilterOutSpec | ellm.py:170-171 | The kept statements contain no FunctionDef of that name, keep their order, and are one fewer per removed definition, and every other statement stays. |
| FunctionRemoval.CountSplit | ellm.py:169 | Every FunctionDef of that name the walk can meet is either at the top level or below it. |
| FunctionRemoval.RemovedFailsIff | ellm.py:169-171 | The walk raises if and only if a FunctionDef of that name sits below the top level, and the error is ValueError. |
| FunctionRemoval.RemovedLeavesNone | ellm.py:165-174 | On success no FunctionDef of that name is left anywhere in the tree. |
| FunctionRemoval.RemovedNoTarget | ellm.py:169-171 | A module without such a definition comes back unchanged. |
| FunctionRemoval.RemovedIdempotent | ellm.py:165-174 | Removing twice is removing once. |
| FunctionRemoval.RemoveTopLevel | ellm.py:168-171 | The intended removal: no top-level FunctionDef of that name remains, the rest is kept in order with one fewer per removed definition, and nothing nested is added. |
| FunctionRemoval.RemovedAgreesWhenFlat | ellm.py:169-171 | Where the walk does not raise, it gives the intended removal. |
| FunctionRemoval.MethodOfSameNameRaises | ellm.py:170-171 | A class with a method named `foo`, next to a top-level `foo`, makes the walk raise ValueError, where the intended result keeps only the class. |

## Left out

- Python's tokenizer is not modelled. `remove_comments_and_docstrings` takes the token stream as its input.
- `ast.parse`, `ast.unparse`, `ast_comments.parse` and `ast_comments.unparse` are parameters. Nothing is assumed about them, except in the one lemma that says so in its hypothesis.
- The matcher of `difflib` is a parameter returning an edit script. Two assumptions are placed on it: the script must read the first side and produce the second, and equal sides must give an all-keep script. Its heuristics (junk lines, longest matching blocks) are not modelled, so no minimality of the delta is claimed.
- Only the two fixed patterns of `ellm.py` are modelled, not regular expressions in general. The language tag in the fenced-block pattern is matched as literal text, so a tag containing regex metacharacters is not modelled.
- `json.dumps` is a parameter, `dumps`; only its result is placed into the prompt.
- The in-place updates of the tree are modelled as rebuilding the tree as a value:
  - `node.body = node.body[1:]` in the visitor;
  - `node.body[0].value.s = …` and `node.body.insert` in `replace_docstring`;
  - `tree.body.remove` in `remove_function`.
  No two nodes share storage in the model.
- Two identity effects are modelled explicitly, not through aliasing: the identity lookup of `list.remove`, and the fact that `ast.walk` is breadth first.
- `ast.get_docstring` (ellm.py:196) is not modelled: its result is discarded.
- `ast.Str` is modelled as a string constant; other constants are `NonStr`.
- DocstringEdit.EditPassesCheck holds under its hypothesis that the printed program parses back to the edited tree. It fails when a comment precedes the docstring: the printer then emits the old docstring string after the comment, and the check can report a difference.
- Reading and writing files, standard error, `sys.argv`, configuration, and the clients for OpenAI, Google and Hugging Face are I/O and are left out. This includes the rest of `replace_docstring` after the diff, `llm_doctsring`, `get_llm_answer` and the `get_*_answer` functions.
- The dead assignment of `remove_comments_and_docstrings` in `diff_python` (stockholm_diff.py:113) has no effect. The model uses `str2ast2str` only, as the code does after line 114.
- The unreachable `findall` after the `raise` in the header script (header-comment-python-file-with-llm.py:122-123) is not modelled. Its `lang` parameter is accepted and unused.
- The other scripts of the repository and the pricing of `llm.py` are not part of this model.
- Strings are sequences of characters, with no encoding. The whitespace class `Text.IsSpace` is the fixed character set Python's `str.strip` and `\s` use; Unicode normalisation is not modelled.
- UnifiedDiff renders the headers with empty file names and no dates, as `diff_python` calls `unified_diff` without them.

## Findings

| source | as written | input that shows it | evidently intended | confidence | as-written member | corrected member |
|---|---|---|---|---|---|---|
| ellm.py:169-171 | `ast.walk` also yields FunctionDefs nested in classes or functions, and `tree.body.remove(node)` raises ValueError for them because they are not in the module body | a module holding `class C` with a method `foo`, followed by a top-level `def foo`, with `function_name = "foo"` | delete the top-level FunctionDefs of that name and keep everything else | medium, not executed | FunctionRemoval.MethodOfSameNameRaises | FunctionRemoval.RemoveTopLevel |
