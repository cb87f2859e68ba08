# Boolean prompt search of HELMPromptBrowser, in Dafny

HELMPromptBrowser is a desktop browser for the prompts of the HELM benchmark.
Its search box takes a boolean query over words: `!` (not), `&` (and), `|` (or),
parentheses, and double quotes for phrases. The query is processed in four steps:

1. It is tokenized and parsed into an expression tree.
2. The tree is rewritten into disjunctive normal form (DNF).
3. The DNF is flattened into a list of (inclusions, exclusions) term-list pairs.
4. A prompt is shown when one pair has all of its inclusions in the prompt and none of its exclusions.

This project models that pipeline and proves properties of it. It covers both revisions in the repository:

- the current one, under `src/parser/`;
- the first one, in `src/booleanparser.cpp`, `src/logic.cpp` and `src/queryparser.cpp`.

It also models the prompt-matching and dataset-name helpers, and the vendor arithmetic of the language-model record.

Modules, one per source file:

| module | file | models |
|---|---|---|
| `Expressions` | expression.dfy | The expression tree (`Expr`) and its truth value `Eval` under an assignment of truth values to words. Also `print`, and the in-place node container of `src/expression.cpp` (class `Expression`). |
| `Tokens` | tokens.dfy | Token kinds, tokens, and the cursor step `advance`. |
| `BooleanParser` | boolean_parser.dfy | The current tokenizer and recursive-descent parser. The class `Parser` has the fields `tokens`/`index`/`sym`. Its methods are specified by functions over the token list. |
| `RoundTrip` | round_trip.dfy | Parsing what `print` writes gives back the tree. |
| `ParserExamples` | parser_examples.dfy | Precedence, associativity, quoting and rejection, for arbitrary words. |
| `Logic` | logic.dfy | Node tests, `isNNF`/`isDNF`, `toNNF`, `distributeAndOr`, `NNFtoDNF`, `toDNF`. |
| `Terms` | terms.dfy | The (inclusions, exclusions) pair, its meaning, and `std::ranges::merge`. |
| `QueryParser` | query_parser.dfy | `checkQuery`, `getQueryLists`, `getQueries`, and the public `getQueries(QString)`. |
| `QueryExamples` | query_examples.dfy | Worked query-to-pairs examples. |
| `Helpers` | helpers.dfy | `matches`, `splitDatasetName`, `getFiltersFromDatasetList`. |
| `Search` | search.dfy | The search as the main window runs it: check, compile, then keep the prompts that match. |
| `LanguageModels` | language_model.dfy | `LanguageModel` and `vendor()`. |
| `LegacyBooleanParser`, `LegacyExamples` | legacy_parser.dfy, legacy_examples.dfy | The first tokenizer and parser, which accepts only fully parenthesised binary operators. |
| `LegacyTokenShape` | legacy_tokens.dfy | What the first tokenizer emits for every query: words of letters, the symbol tokens, and one ILLEGAL token per stray character. |
| `LegacyLogic` | legacy_logic.dfy | The first `toNNF`/`NNFtoDNF`/`toDNF`. |
| `LegacyQuery` | legacy_query.dfy | The first `checkQuery` and public `getQueries`. |

The two revisions share the parts whose code is the same. These are the tree, the node tests, the normal-form predicates, `distributeAndOr`, `getQueryLists` and the per-disjunct `getQueries`.

The class methods of each parser are proved against specification functions (`NegationAt`, `ExpressionAt`, …). The properties themselves are proved about those functions. Their results carry the value of the out-parameter on failure too, because the public `getQueries` ignores whether parsing succeeded.

Where the code and its description differ, the model follows the code:

- The current public `getQueries("")` returns two empty pairs, not an empty list.
- The current `toNNF` puts only the root in negation normal form. It is neither NNF-producing nor idempotent; `Logic.ToNNFOnlyAtRoot` gives the counterexample.
- The first `toNNF` can leave double negations inside its result; `LegacyLogic.DoubleNegationSurvives` shows one.
- The first parser rejects `a | b & c` and accepts only `(a | (b & c))`-style input.

## Model

| member | source | states |
|---|---|---|
| Tokens.Flush | src/parser/booleanparser.cpp:94-96 | A pending identifier becomes at most one IDENTIFIER token, and only when it is non-empty. |
| Tokens.NextIndex | src/parser/booleanparser.cpp:101-107 | `advance` keeps the cursor inside the token list and stands still exactly when the current token is END. |
| Expressions.Expression.constructor | src/expression.cpp:3-7 | A default node is NIL, with an empty literal and no children. It stands for the literal "". |
| Expressions.Expression.WithOperator | src/expression.cpp:9-11 | The three-argument constructor sets operator and literal and ignores its children argument, so the node has zero children. |
| Expressions.Expression.ChildCount | src/expression.cpp:47-50 | `childCount()` is the number of children. |
| Expressions.Expression.Child | src/expression.cpp:52-55 | `child(pos)` is defined only for `0 <= pos < childCount()` and yields one of the node's children. |
| Expressions.Expression.AddOperand | src/expression.cpp:13-21 | Both overloads append exactly one child at the end: the count grows by one, earlier children are unchanged and the last child is the operand. |
| Expressions.Expression.AddOperands | src/expression.cpp:23-27 | The given expressions are appended in order, and the count grows by their number. |
| Expressions.BuildBinary | src/logic.cpp:131-137 | A node made from an operator, then given two operands with `addOperands`, stands for the AND/OR of the two operands. |
| Expressions.Print | src/expression.cpp:29-45 | `print` writes a literal as its text, `!` before a negation's operand, and each AND/OR as `(lhs & rhs)` / `(lhs &#124; rhs)`. |
| BooleanParser.Step | src/parser/booleanparser.cpp:47-91 | One iteration of the character loop. Inside quotes with text pending, a non-identifier character other than `"` joins the word. Otherwise such a character first flushes the word, and then: an identifier character joins it, a space joins it only inside quotes, a quote toggles quote mode, `( ) ! &#124; &` emit their token, and anything else emits an ILLEGAL token. |
| BooleanParser.Run | src/parser/booleanparser.cpp:46-92 | The character loop applies `Step` to each character of the formula in order. |
| BooleanParser.TokenList | src/parser/booleanparser.cpp:39-99 | `tokenize` gives START, the tokens of the loop, the last pending word if non-empty, then END. |
| BooleanParser.OpToken | src/parser/booleanparser.cpp:74-88 | Each parenthesis or operator character gives a one-character token that is not an IDENTIFIER. |
| BooleanParser.StepWordChar | src/parser/booleanparser.cpp:57-59 | An identifier character joins the pending identifier and emits nothing. |
| BooleanParser.StepSpace | src/parser/booleanparser.cpp:47-65 | Outside quotes, a space only flushes the pending identifier. Inside quotes, it joins the identifier. |
| BooleanParser.StepOperator | src/parser/booleanparser.cpp:47-88 | Outside quotes, or with nothing pending, `( ) ! & &#124;` flush the identifier and emit their token. Inside quotes with text pending, they join the identifier. |
| BooleanParser.StepQuote | src/parser/booleanparser.cpp:47-73 | Inside quotes with text pending, a closing quote is dropped and quote mode stays on. Otherwise a quote flushes and toggles quote mode. |
| BooleanParser.RunQuotedTail | src/parser/booleanparser.cpp:47-53 | Once inside quotes with text pending, every later character except `"` joins that identifier, and no token is emitted. |
| BooleanParser.RunWord | src/parser/booleanparser.cpp:57-59 | A run of identifier characters extends the pending identifier. |
| BooleanParser.RunInfix | src/parser/booleanparser.cpp:60-88 | Outside quotes, ` & ` or ` &#124; ` flushes the identifier and emits exactly the operator token. |
| BooleanParser.NegationAt | src/parser/booleanparser.cpp:165-188 | `negation` never moves the cursor back or past END, and consumes at least one token when it succeeds. |
| BooleanParser.ConjunctionAt | src/parser/booleanparser.cpp:147-163 | The same cursor bounds for `conjunction`. |
| BooleanParser.ConjunctionTail | src/parser/booleanparser.cpp:152-161 | The `while (match(AND))` loop never moves the cursor back or past END. |
| BooleanParser.DisjunctionAt | src/parser/booleanparser.cpp:129-145 | The same cursor bounds for `disjunction`. |
| BooleanParser.DisjunctionTail | src/parser/booleanparser.cpp:134-143 | The `while (match(OR))` loop never moves the cursor back or past END. |
| BooleanParser.SentenceAt | src/parser/booleanparser.cpp:118-127 | Success implies that END was reached, so every token was consumed. |
| BooleanParser.TokenListWellFormed | src/parser/booleanparser.cpp:39-99 | The token list is never empty and ends with END. |
| BooleanParser.StepEmits | src/parser/booleanparser.cpp:46-92 | One character only appends tokens, and only parenthesis, operator or non-empty IDENTIFIER tokens without a `"` in their text. It never appends an ILLEGAL token. |
| BooleanParser.RunEmits | src/parser/booleanparser.cpp:46-92 | The same holds for the whole character loop. |
| BooleanParser.TokenListShape | src/parser/booleanparser.cpp:39-99 | The list starts with START and ends with END. Every token in between is a parenthesis, an operator or a non-empty identifier, with no `"` in its text. |
| BooleanParser.ParseQuery | src/parser/booleanparser.cpp:10-15 | `parse` on a fresh parser: `sentence` over the formula's token list, from the cleared (empty literal) expression. |
| BooleanParser.Parser.constructor | src/parser/booleanparser.cpp:6-8 | A fresh parser has cursor 0, symbol START and no tokens. |
| BooleanParser.Parser.Tokenize | src/parser/booleanparser.cpp:39-99 | The old list is cleared and replaced by the token list of the formula. |
| BooleanParser.Parser.Advance | src/parser/booleanparser.cpp:101-107 | The cursor moves one step unless it is on END; the symbol stays the kind of the current token. |
| BooleanParser.Parser.Match | src/parser/booleanparser.cpp:109-116 | Returns whether the current kind is the requested one, and advances only then. |
| BooleanParser.Parser.Sentence | src/parser/booleanparser.cpp:118-127 | Outcome, tree and final cursor are those of the sentence grammar. |
| BooleanParser.Parser.Disjunction | src/parser/booleanparser.cpp:129-145 | The loop builds the left-associative OR chain of the disjunction grammar. |
| BooleanParser.Parser.Conjunction | src/parser/booleanparser.cpp:147-163 | The loop builds the left-associative AND chain of the conjunction grammar. |
| BooleanParser.Parser.Negation | src/parser/booleanparser.cpp:165-188 | Outcome, tree and cursor are those of the negation grammar. |
| BooleanParser.Parser.Parse | src/parser/booleanparser.cpp:10-15 | On a fresh parser, the outcome and tree are those of the whole-query parse. |
| BooleanParser.Parser.Check | src/parser/booleanparser.cpp:17-22 | On a fresh parser, the result is whether the whole query parses. |
| ParserExamples.QuotedFromStart | src/parser/booleanparser.cpp:47-73 | After `"` and a word, the rest of the query, without its quotes, joins the same identifier. |
| ParserExamples.QuotedPhrase | src/parser/booleanparser.cpp:47-73 | `"x y"` gives `[START, IDENT "x y", END]`. |
| ParserExamples.ClosingQuoteKeepsQuoteMode | src/parser/booleanparser.cpp:47-73 | `"x" &#124; y` gives `[START, IDENT "x &#124; y", END]`. |
| ParserExamples.InfixTokens | src/parser/booleanparser.cpp:39-99 | `x o y o z` gives START, the three words with the two operators between them, and END. |
| ParserExamples.AndBindsTighterThanOr | src/parser/booleanparser.cpp:129-188 | `x &#124; y & z` parses to `Or(x, And(y, z))` and consumes every token. |
| ParserExamples.OrIsLeftAssociative | src/parser/booleanparser.cpp:129-145 | `x &#124; y &#124; z` parses to `Or(Or(x, y), z)`. |
| ParserExamples.AndIsLeftAssociative | src/parser/booleanparser.cpp:147-163 | `x & y & z` parses to `And(And(x, y), z)`. |
| ParserExamples.NotBindsTighterThanAnd | src/parser/booleanparser.cpp:147-180 | `!x & y` parses to `And(Not(x), y)`. |
| ParserExamples.UnclosedParenthesisRejected | src/parser/booleanparser.cpp:181-186 | `(x & y` is rejected. |
| ParserExamples.DanglingAndRejected | src/parser/booleanparser.cpp:152-160 | `x &` is rejected. |
| ParserExamples.JuxtapositionRejected | src/parser/booleanparser.cpp:118-127 | `x y` is rejected. |
| ParserExamples.EmptyRejected | src/parser/booleanparser.cpp:118-188 | The parser rejects the empty query. |
| ParserExamples.PrecedenceInstance | src/parser/booleanparser.cpp:129-188 | `a &#124; b & c` is `Or(a, And(b, c))`. |
| ParserExamples.AssociativityInstance | src/parser/booleanparser.cpp:129-145 | `a &#124; b &#124; c` is `Or(Or(a, b), c)`. |
| RoundTrip.RunPrint | src/expression.cpp:29-45 | Scanning what `print` writes emits exactly the token layout of the tree. |
| RoundTrip.PrintTokens | src/expression.cpp:29-45 | The token list of `print(e)` is START, the layout of `e`, END. |
| RoundTrip.ParseLaidOut | src/parser/booleanparser.cpp:165-188 | `negation` reads a laid-out tree back as itself and stops right after it. |
| RoundTrip.ParsePrint | src/expression.cpp:29-45 | For a tree of non-empty words without `( ) " space ! & &#124;`, parsing `print(e)` succeeds, returns `e` and consumes every token. |
| RoundTrip.PrintInjective | src/expression.cpp:29-45 | Two such trees with the same printed text are equal. |
| Logic.IsAtomic | src/parser/logic.cpp:3-6 | `isAtomic`: the node's operator is NIL. |
| Logic.IsConjunction | src/parser/logic.cpp:8-11 | `isConjunction`: the node's operator is AND. |
| Logic.IsDisjunction | src/parser/logic.cpp:13-16 | `isDisjunction`: the node's operator is OR. |
| Logic.IsNegation | src/parser/logic.cpp:18-21 | `isNegation`: the node's operator is NOT. |
| Logic.NoOr | src/parser/logic.cpp:24-35 | `noOr`: literals have no OR, a negation has none when its operand has none, an OR node fails, and an AND has none when neither side has. |
| Logic.NoAndAboveOr | src/parser/logic.cpp:37-49 | `noAndAboveOr`: literals pass, a negation passes when its operand does, an OR passes when both sides do, and an AND passes when neither side holds an OR. |
| Logic.IsNNF | src/parser/logic.cpp:68-77 | `isNNF`: literals pass, a negation passes exactly when its operand is a literal, and an AND/OR passes when both sides do. |
| Logic.IsDNF | src/parser/logic.cpp:63-66 | `isDNF`: NNF and no AND above an OR. |
| Logic.KindsExclusive | src/parser/logic.cpp:3-21 | The four node tests look only at the operator, and exactly one of them holds for every node. |
| Logic.NoOrNoAndAboveOr | src/parser/logic.cpp:24-49 | A tree without OR has no AND above an OR. |
| Logic.DNFIsDisjunctionOfClauses | src/parser/logic.cpp:63-77 | `isDNF` holds exactly when every disjunct of the top OR spine is a conjunction of literals and negated literals. |
| Logic.Complement | src/parser/logic.cpp:110-117 | Negating an operand, or stripping its NOT, gives the opposite truth value and keeps the count of AND/OR nodes. |
| Logic.ToNNF | src/parser/logic.cpp:95-125 | `toNNF` keeps the truth value and the count of AND/OR nodes, and its root is never a NOT over a non-literal. |
| Logic.ToNNFKeepsNNF | src/parser/logic.cpp:68-125 | An NNF tree comes back unchanged. |
| Logic.ToNNFOnlyAtRoot | src/parser/logic.cpp:100-118 | `!((a & b) &#124; c)` becomes `And(Not(And(a, b)), Not(c))`, which is not NNF, and a second `toNNF` changes it again. |
| Logic.DistributeAndOr | src/parser/logic.cpp:51-60 | The result is equivalent to `And(expr1, expr2)`, and it is DNF when both inputs are. |
| Logic.NNFtoDNF | src/parser/logic.cpp:79-88 | The result keeps the truth value. Literals and negations come back unchanged. The result is DNF unless the input is a negation of a non-literal, which `toNNF` never leaves at the root. |
| Logic.ToDNF | src/parser/logic.cpp:90-93 | `toDNF(e)` is DNF and equivalent to `e`. |
| Logic.ToDNFKeepsDNF | src/parser/logic.cpp:79-93 | A DNF tree comes back unchanged. |
| Logic.ToDNFIdempotent | src/parser/logic.cpp:79-93 | `toDNF(toDNF(e)) == toDNF(e)`. |
| Terms.StrLess | src/parser/queryparser.cpp:38-39 | The order the term merges compare with: lexicographic on characters, a proper prefix first. |
| Terms.ListLess | src/parser/queryparser.cpp:66 | The order of term lists inside the pair order: lexicographic over `StrLess`, a proper prefix first. |
| Terms.PairLess | src/parser/queryparser.cpp:66 | The order the pair merge compares with: by inclusions, and by exclusions when neither inclusion list is less. |
| Terms.Merge | src/parser/queryparser.cpp:38-39 | The merged list's length is the sum of the input lengths, and its multiset is the sum of their multisets. |
| Terms.MergeSorted | src/parser/queryparser.cpp:38-39 | Merging two lists sorted by an asymmetric order gives a sorted list. |
| Terms.MergeMembers | src/parser/queryparser.cpp:38-39 | An element is in the merge exactly when it is in one of the inputs. |
| Terms.MergeStringsSorted | src/parser/queryparser.cpp:38-39 | Merging two sorted term lists gives a sorted term list. |
| QueryParser.CheckQuery | src/parser/queryparser.cpp:9-15 | The empty query is accepted, and any other query is accepted exactly when it parses. |
| QueryParser.QueryLists | src/parser/queryparser.cpp:18-44 | Both term lists of a clause come out sorted. |
| QueryParser.QueryListsTerms | src/parser/queryparser.cpp:18-44 | The inclusions are the clause's literals and the exclusions its negated literals, as multisets. An OR gives an empty pair. |
| QueryParser.QueryListsSatisfied | src/parser/queryparser.cpp:18-44 | On a clause, the pair is satisfied exactly when the clause is true. |
| QueryParser.GetQueries | src/parser/queryparser.cpp:46-68 | There is one pair per disjunct of the top OR spine. |
| QueryParser.GetQueriesPairs | src/parser/queryparser.cpp:46-68 | The pairs are, as a multiset, the `getQueryLists` of the disjuncts. |
| QueryParser.GetQueriesMembers | src/parser/queryparser.cpp:46-68 | A pair is returned exactly when it is the pair of some disjunct. |
| QueryParser.GetQueriesCorrect | src/parser/queryparser.cpp:18-68 | On a DNF tree, the tree is true exactly when some returned pair has every inclusion true and every exclusion false. |
| QueryParser.CompiledQueries | src/parser/queryparser.cpp:71-80 | `""` gives two empty pairs. Any other query gives pairs that are satisfied exactly when its parsed tree is true. |
| QueryParser.CompileQuery | src/parser/queryparser.cpp:71-80 | Running a fresh parser, then `toDNF` and `getQueries`, yields those pairs. |
| QueryExamples.PairOfConjunction | src/parser/queryparser.cpp:28-42 | `y & z` gives one inclusion list holding `y` and `z` in sorted order. |
| QueryExamples.PairsOfWordOrConjunction | src/parser/queryparser.cpp:52-56 | `x &#124; (conjunction)` gives `x`'s pair first, then the conjunction's. |
| QueryExamples.WordOrConjunctionIsDNF | src/parser/logic.cpp:79-93 | `x &#124; y & z` is already DNF and unchanged by `toDNF`. |
| QueryExamples.PrecedenceQueries | src/parser/queryparser.cpp:71-80 | `a &#124; b & c` gives `[([a], []), ([b, c], [])]`. |
| QueryExamples.NegatedConjunctionDNF | src/parser/logic.cpp:95-118 | `toDNF(!(x & y))` is `!x &#124; !y`. |
| QueryExamples.PairsOfTwoNegations | src/parser/queryparser.cpp:63-67 | `!x &#124; !y` gives the two exclusion pairs in merge order. |
| QueryExamples.NegatedConjunctionQueries | src/parser/queryparser.cpp:71-80 | `!(a & b)` gives `[([], [a]), ([], [b])]`. |
| QueryExamples.EmptyQueries | src/parser/queryparser.cpp:73-75 | `""` gives two empty pairs. |
| Helpers.Contains | src/helperfunctions.cpp:517 | `prompt_matches_term`, case-sensitive: the term occurs at some position of the prompt (the empty term everywhere). |
| Helpers.PairMatches | src/helperfunctions.cpp:521-524 | A pair passes when `all_of` its inclusions and none (`any_of` negated) of its exclusions occur in the prompt. |
| Helpers.Accepts | src/helperfunctions.cpp:520-531 | The loop's answer: some pair passes. |
| Helpers.Matches | src/helperfunctions.cpp:516-534 | The loop returns true exactly when some pair has every inclusion as a substring of the prompt and no exclusion as a substring. |
| Helpers.PairMatchesSatisfies | src/helperfunctions.cpp:519-529 | A pair matches a prompt exactly when it is satisfied by "the prompt contains the word". |
| Helpers.NoPairsNoMatch | src/helperfunctions.cpp:518-533 | With no pairs, no prompt matches. |
| Helpers.EmptyPairMatchesAll | src/helperfunctions.cpp:522-523 | A list holding the empty pair matches every prompt. |
| Helpers.AcceptsOrderIndependent | src/helperfunctions.cpp:520-531 | Lists of pairs with the same members give the same answer. |
| Helpers.Split | src/helperfunctions.cpp:327-334 | `split` gives at least one piece, and no piece holds the separator. Without a separator it gives the whole text. Otherwise the first piece, the separator and the rest make up the text, and the other pieces are the split of the rest. |
| Helpers.SplitDatasetName | src/helperfunctions.cpp:317-340 | The three whole names stay whole. A `legal_support` name splits at commas, another name with a colon splits at colons, and a name with neither has no specification. The base is the text before the first separator, and the specification is the text up to the second separator. |
| Helpers.SplitFirstTwo | src/helperfunctions.cpp:327-334 | The first two pieces of a split are the text before the first separator and the text between the first and the second. |
| Helpers.SplitDatasetNameJoins | src/mainwindow.cpp:601-606 | With exactly one separator, base, separator and specification join back into the name. |
| Helpers.ReplaceColons | src/helperfunctions.cpp:132 | Every `:` becomes `_`, and every other character is kept. |
| Helpers.Filter | src/helperfunctions.cpp:132 | A filter is the name followed by `*`. On `windows` it has no `:` left, and elsewhere it starts with the name unchanged. |
| Helpers.FiltersFromDatasetList | src/helperfunctions.cpp:127-136 | There is one filter per name, in order. |
| Search.CompiledQueriesAccept | src/mainwindow.cpp:424-447 | For a non-empty query, the compiled pairs accept a prompt exactly when the parsed query is true on it. |
| Search.EmptyQueryAcceptsAll | src/parser/queryparser.cpp:73-75 | The empty query's pairs accept every prompt. |
| Search.Selected | src/helperfunctions.cpp:391-400 | A prompt is kept exactly when it is one of the prompts and the pairs accept it. The kept prompts are a subsequence of the prompts, in their order, and each accepted prompt is kept as many times as it occurs. |
| Search.SearchPrompts | src/mainwindow.cpp:424-447 | A query that fails `checkQuery` keeps nothing. Otherwise the loop keeps exactly the accepted prompts, in order. |
| Search.SearchSelectsExactly | src/helperfunctions.cpp:391-400 | A non-empty well-formed query keeps exactly the prompts it is true on. |
| Search.AllAcceptedKeepsAll | src/helperfunctions.cpp:391-400 | When the pairs accept every prompt, every prompt is kept, in order. |
| Search.EmptySearchKeepsAll | src/parser/queryparser.cpp:73-75 | The empty query keeps every prompt. |
| LanguageModels.LanguageModel.Vendor | src/languagemodel.cpp:21-25 | For a non-negative id, the vendor is `(id / 16) % 16`, in 0..15. A negative id gives a value in -15..0. |
| LanguageModels.TruncDiv | src/languagemodel.cpp:24 | The C++ `/` rounds toward zero. |
| LanguageModels.TruncMod | src/languagemodel.cpp:24 | The C++ `%` leaves a remainder with the sign of the dividend, consistent with `/`. |
| LanguageModels.VendorIsHighDigit | src/languagemodel.cpp:21-25 | For a one-byte id, the vendor is its high hexadecimal digit. |
| LanguageModels.SameVendor | src/languagemodel.cpp:21-25 | Ids that differ only in the low hexadecimal digit have the same vendor. |
| LanguageModels.VendorExamples | src/mainwindow.hpp:79-115 | `0x12` gives vendor 1 and `0xA5` gives vendor 10. |
| LanguageModels.NegativeIdVendor | src/languagemodel.cpp:21-25 | `-0x12` gives -1, which names no vendor. |
| LegacyBooleanParser.IsAlpha | src/booleanparser.cpp:109-117 | `isalpha` in the C locale: an ASCII letter. |
| LegacyBooleanParser.Step | src/booleanparser.cpp:108-143 | One iteration of the first loop. Inside quotes with a word pending, every non-letter is skipped. Otherwise a non-letter flushes the word, and then: a letter joins it, a space joins it only inside quotes, a quote toggles quote mode, `( ) ! &#124; &` emit their token, and anything else emits an ILLEGAL token. |
| LegacyBooleanParser.Run | src/booleanparser.cpp:108-144 | The loop applies `Step` to each character of the formula in order. |
| LegacyBooleanParser.TokenList | src/booleanparser.cpp:100-151 | A fresh tokenizer's list is never empty and ends with END. |
| LegacyBooleanParser.ExpressionAt | src/booleanparser.cpp:37-87 | `expression` never moves the cursor back or past END, and consumes a token when it succeeds. |
| LegacyBooleanParser.BinaryAt | src/booleanparser.cpp:53-84 | The same holds for the parenthesised binary branch. |
| LegacyBooleanParser.SentenceAt | src/booleanparser.cpp:89-98 | Success implies that END was reached. |
| LegacyBooleanParser.ParseQuery | src/booleanparser.cpp:12-16 | `parse` on a fresh parser: `sentence` over the formula's token list, from an empty literal. |
| LegacyBooleanParser.Parser.constructor | src/booleanparser.cpp:7-9 | A fresh parser has cursor 0, symbol START and no tokens. |
| LegacyBooleanParser.Parser.Tokenize | src/booleanparser.cpp:100-151 | The tokens are appended to the existing list, which is not cleared. |
| LegacyBooleanParser.Parser.Advance | src/booleanparser.cpp:18-25 | The cursor moves one step unless it is on END. |
| LegacyBooleanParser.Parser.Expect | src/booleanparser.cpp:27-35 | Returns whether the current kind matches, and consumes a token only then. |
| LegacyBooleanParser.Parser.Expression | src/booleanparser.cpp:37-87 | Outcome, tree and cursor are those of the `expression` grammar, including the NOT that wraps a failed operand. |
| LegacyBooleanParser.Parser.Binary | src/booleanparser.cpp:53-84 | Outcome, tree and cursor are those of `( expression (&&#124;&#124;) expression )`. |
| LegacyBooleanParser.Parser.Sentence | src/booleanparser.cpp:89-98 | It skips START if present, then requires an expression followed by END. |
| LegacyBooleanParser.Parser.Parse | src/booleanparser.cpp:12-16 | On a fresh parser, the tokens are those of the formula, and the outcome is that of `sentence` from the caller's expression. |
| LegacyBooleanParser.RunKeepsTokens | src/booleanparser.cpp:108-144 | The character loop only ever appends tokens. |
| LegacyTokenShape.WordText | src/booleanparser.cpp:109-123 | A pending word is letters after any number of spaces. A space joins only an empty word inside quotes, and a non-letter never joins a non-empty word. |
| LegacyTokenShape.Stray | src/booleanparser.cpp:141-143 | The characters that reach the final `else`: not a letter, space, quote, parenthesis or operator. |
| LegacyTokenShape.Emittable | src/booleanparser.cpp:108-148 | The tokens the loop may emit: a non-empty word of that shape, one of the five `( ) ! &#124; &` tokens, or a one-character ILLEGAL token of a stray character. |
| LegacyTokenShape.StepEmits | src/booleanparser.cpp:108-143 | One character keeps the pending word's shape and appends only emittable tokens. |
| LegacyTokenShape.RunEmits | src/booleanparser.cpp:108-144 | The same holds over the whole character loop. |
| LegacyTokenShape.TokenListShape | src/booleanparser.cpp:100-151 | The list is START, then only emittable tokens, then END. So every identifier is a non-empty run of letters, possibly after leading quoted spaces. Every stray character becomes its own one-character ILLEGAL token. |
| LegacyBooleanParser.StepAgrees | src/booleanparser.cpp:108-143 | Outside quotes, on letters, spaces, parentheses and operators, one step of this tokenizer is one step of the current one. |
| LegacyBooleanParser.RunAgrees | src/booleanparser.cpp:108-144 | Hence the two tokenizers agree on such text. |
| LegacyBooleanParser.ParseLaidOut | src/booleanparser.cpp:37-87 | `expression` reads a laid-out tree back as itself. |
| LegacyBooleanParser.PrintTokens | src/booleanparser.cpp:100-151 | The first tokenizer gives the printed text of a tree of letter words START, the tree's token layout, END. |
| LegacyBooleanParser.ParsePrint | src/expression.cpp:29-45 | For a tree of letter words, parsing `print(e)` succeeds, returns `e` and consumes every token. |
| LegacyExamples.RunLetters | src/booleanparser.cpp:116-118 | Letters join the pending word. |
| LegacyExamples.SkippedInQuotes | src/booleanparser.cpp:109-112 | Inside quotes with a word pending, a non-letter is dropped. |
| LegacyExamples.QuotedWordsJoin | src/booleanparser.cpp:108-130 | `"x y"` gives the single word `xy`. |
| LegacyExamples.DigitIsIllegal | src/booleanparser.cpp:141-143 | A digit becomes an ILLEGAL token. |
| LegacyExamples.EmptyRejected | src/booleanparser.cpp:89-98 | The empty query is rejected. |
| LegacyExamples.DanglingNegation | src/booleanparser.cpp:45-51 | `!` fails, and the NOT still wraps the untouched expression. |
| LegacyExamples.InfixTokens | src/booleanparser.cpp:108-150 | Both tokenizers scan `x &#124; y & z` to the same tokens. |
| LegacyExamples.StopsAfterWord | src/booleanparser.cpp:37-98 | A word followed by any token but END is not a sentence of this grammar: the sentence fails right after the word. |
| LegacyExamples.OrThenAndStops | src/booleanparser.cpp:37-98 | `x &#124; y & z` stops after `x`, with `x` in the tree. |
| LegacyExamples.UnparenthesisedRejected | src/booleanparser.cpp:37-98 | `x &#124; y & z` is rejected after `x`, while the current parser accepts it. |
| LegacyExamples.ConjunctionTokens | src/booleanparser.cpp:108-150 | `x & y` gives START, `x`, `&`, `y`, END. |
| LegacyExamples.ConjunctionRejected | src/booleanparser.cpp:37-98 | `x & y` without parentheses is rejected right after `x`. |
| LegacyExamples.WordAndThen | src/parser/booleanparser.cpp:47-88 | Outside quotes, a word then ` & ` emits the word and `&` and leaves nothing pending. |
| LegacyExamples.WordClose | src/parser/booleanparser.cpp:47-96 | Outside quotes, a word then `)` emits the word and `)`. |
| LegacyExamples.TailScan | src/parser/booleanparser.cpp:46-92 | Outside quotes, `y & z)` emits its four tokens. |
| LegacyExamples.ChainScan | src/parser/booleanparser.cpp:46-92 | The current loop scans `(x & y & z)` to its eight tokens. |
| LegacyExamples.ChainTokens | src/booleanparser.cpp:100-151 | The first tokenizer gives `(x & y & z)` the same tokens, between START and END. |
| LegacyExamples.ChainRejected | src/booleanparser.cpp:53-84 | `(x & y & z)` is rejected at the second `&`, because one pair of parentheses holds exactly one operator. The tree then holds `y`. |
| LegacyExamples.ParenthesisedConjunction | src/booleanparser.cpp:53-84 | `(a & b)` is accepted as `And(a, b)`. |
| LegacyLogic.ToNNF | src/logic.cpp:96-138 | The first `toNNF` keeps the truth value and the count of AND/OR nodes, and its root is never a NOT over a non-literal. |
| LegacyLogic.ToNNFKeepsNNF | src/logic.cpp:80-138 | An NNF tree comes back unchanged. |
| LegacyLogic.DoubleNegationSurvives | src/logic.cpp:110-127 | `!(!x &#124; y)` becomes `!!x & !y`, which is not NNF, while the current revision gives `x & !y`. `toDNF` still reaches `x & !y`. |
| LegacyLogic.NNFtoDNF | src/logic.cpp:140-151 | The result keeps the truth value, and leaves come back unchanged. The result is DNF unless the input is a negation of a non-literal, which `toNNF` never leaves at the root. |
| LegacyLogic.ToDNF | src/logic.cpp:153-156 | The first `toDNF` is DNF and equivalent to its input. |
| LegacyLogic.ToDNFKeepsDNF | src/logic.cpp:140-156 | A DNF tree comes back unchanged. |
| LegacyLogic.ToDNFIdempotent | src/logic.cpp:140-156 | `toDNF(toDNF(e)) == toDNF(e)`. |
| LegacyLogic.ToDNFRevisionsAgreeOnDNF | src/logic.cpp:140-156 | On DNF input both revisions of `toDNF` return the input. |
| LegacyQuery.CheckQuery | src/queryparser.cpp:11-15 | A query is accepted exactly when it parses, so `""` is rejected. |
| LegacyQuery.CompiledQueries | src/queryparser.cpp:71-76 | For every query, with no empty-query case and whether or not parsing succeeded, the pairs are satisfied exactly when the tree left by the parser is true. |
| LegacyQuery.CompileQuery | src/queryparser.cpp:71-76 | Running a fresh parser, then `toDNF` and `getQueries`, yields those pairs. |
| LegacyQuery.EmptyQuery | src/queryparser.cpp:71-76 | `""` fails to parse. It compiles to one pair that includes the empty word, which every prompt contains. |
| LegacyQuery.RevisionsAgreeOnPrinted | src/queryparser.cpp:71-76 | For a printed tree of letter words, both revisions accept the query, and their pairs are satisfied exactly when the tree is true. |

## Left out

- Qt, the GUI and I/O are not modelled: the main window's slots and tree widgets, settings, dialogs, JSON loading, directory scanning and message boxes. The search is modelled on a list of prompt texts.
- The main window's pre-normalisation of the search text (trimming, and replacing `NOT`/`AND`/`OR` by `! & |`) is a GUI string rewrite and is not modelled.
- The tree widget's de-duplication of prompts by id is not modelled.
- Helpers.Matches: only the case-sensitive search is modelled. The case-insensitive one depends on Qt's Unicode case folding.
- Helpers.SplitDatasetName: the model requires a comma in every name that contains `legal_support`, so it excludes the out-of-range `split(",").at(1)` that the source performs on such a name without a comma (a Qt assertion in a debug build, an out-of-range read in a release build). `getSelectedDatasetNames` can pass such a name, because it passes a top-level dataset without sub-datasets under its bare name.
- The operating-system name that `getFiltersFromDatasetList` reads from `QSysInfo::productType()` is a parameter.
- `QString` and `std::string` comparison is modelled as lexicographic order on characters. `isalpha` is modelled as ASCII letters.
- LegacyBooleanParser.TokenList: the first tokenizer loops over the bytes of a `std::string`, and the model reads characters. A non-ASCII character is several UTF-8 bytes there, so the source emits one ILLEGAL token per byte where the model emits one per character (and `isalpha` of a negative `char` is undefined behaviour). Both fail the parse at the first ILLEGAL token, but the token lists differ for such input. `Step`, `Run` and `Tokenize` share this limit.
- The self-copy child that both parsers attach to literal nodes is dropped. No code reads it, because every test looks only at the operator.
- Children held by `shared_ptr` are values in the model, so aliasing between trees is not modelled.
- src/parser/expression.cpp is not part of this model. The current pipeline is modelled assuming that its `Expression(op, "", {a, b})` keeps its children and that `clear()` resets to an empty literal, as its callers rely on.
- The `Expression` class of src/expression.cpp is modelled for its own operations, but both pipelines compute with `Expr` values. `print`'s `return ""` for an unknown operator and its `at()` exceptions on missing children are outside the tree datatype.
- Expressions.Expression.Child: states only that the result is one of the children. Which child it is follows from its position, as `AddOperand`'s contract shows for the last one.
- The unreachable `return {}` at the end of the negation branch of both `toNNF`s is left out: the tree datatype has no other node kind.
- The parsers' `m_Index`/`m_Sym` cursor is modelled for a freshly constructed parser, which is how every caller uses it. LegacyBooleanParser.Parser.Parse requires an empty token list, because the first `tokenize` does not clear it.
- The first tokenizer's loop collects the new tokens in a local list and appends it to the field once at the end. The final list is the same as appending one token at a time.
- The parenthesised branch of the first `expression` is a separate method, `Binary`, with its own specification function.
- `LanguageModel`'s `id()` and `name()` getters are the datatype's fields. The `parameters` field is a floating-point number and is left out. `vendor()` returns the integer that is cast to the vendor enumeration.
- The Boost.Spirit grammar in src/booleangrammar.cpp duplicates the hand-written grammar and is not modelled.
- `std::ranges::merge` on unsorted inputs is modelled as the two-pointer merge. The C++ standard leaves that case unspecified, so only length, multiset and membership are claimed for it, plus sortedness for sorted inputs.
