# Verification model of the ClickHouse SQL rewriter

The rewriter takes a ClickHouse statement, checks what it reads, and hands on another statement. A foreign
parser and generator sit at both ends; between them the Go code runs a number of algorithms of its own. This
project models nine of them in Dafny and proves what they are for. The parser's trees, the tokenizer's tokens
and the random values are inputs of the model.

## What is modelled

**The snapshot-query compiler** (`Snapshot*.dfy`). `AnalyzeSnapshot` accepts a closed fragment of INSERT … SELECT;
`Prepare` prunes CTEs, renames the tables read to scratch tables, permutes the projection and inserts casts.
`SnapshotAst` is the fragment's tree, `SnapshotAnalyze` and `SnapshotPlan` the analyzer, `SnapshotPrepare` the
rewriting, `SnapshotMaterialize` the prepass that replaces `rand()` calls, `SnapshotBindings` the caller's check
of the scratch bindings and the in-place renaming. `SnapshotEval` fixes a small semantics: rows in order, NULL,
three-valued AND and OR, IN that answers 0 for NULL, scalar subqueries that are NULL when empty and fail on two
rows, aliases substituted throughout their SELECT whether written in the projection, in an ON condition or in WHERE,
an accurateCast that fails outside its type.
The main results say that the prepared SELECT, run on any database that holds copies of the bound tables under
their scratch names, gives the original rows in target order with the casts applied (`PreparePreservesMeaning`, for every accepted
statement), that preparing fails for missing bindings only (`PrepareSucceedsExactly`), that every row has a non-NULL
value of exactly the target type in each column (`PreparedRowsConform`, under the one condition the analyzer does not
check, `AliasesClear`; `SnapshotLateAlias` has a query it misses), and that the pool of random values is used up
exactly, in lexical order (`PoolUsedExactly`).

**The table walk** (`ReadTree`, `ReadWalk`, `FreeNames`, `ReadCoverage`, `ReadFields`, `ReadMissed`, `ReadRewrite`,
`ReadDecided`, `ReadAgain`, `ReadResult`, `ReadCapture`, `ReadCounterexample`). One walk over a statement tree finds the tables it reads, under the
scopes of WITH, recursive WITH, projection aliases, stored view bodies and view() arguments, and refuses a tree in which
it could overlook a read. An object of the statement has named fields; `ReadFields` lists, for every kind of object,
the keys walked, in order, and the keys known but passed over, and decodes an object into a node with three lists: the
fields to visit, the unknown fields (they must hold no read where the position checks) and the fields passed over. The
references found are exactly the free table names, where "free" is said by looking a name up among the declarations on
the path to it; the walk gives up exactly at a read it would overlook; a read it does not overlook and does not walk to
lies below a field that is passed over (`ReadMissed.MissedExactly`). Rewriting in place declares a WITH value after
rewriting it; it asks about exactly the references collected if and only if no name is bound differently for that
(`ReadDecided`). Walking the rewritten statement again declares recursive definitions from their rewritten values too
(`ReadAgain`); what is found then is known for all decisions (`ReadResult.CollectAfterRewrite`), and it is the decided
names at their places if and only if no kept name is bound in that second walk and no renamed one while rewriting
(`ReadCapture.RewriteIsCaptureFree`).

**Operator isolation** (`Tokens`, `Brackets`, `Precedence`, `Isolation`, `Regrouping`). Before an operator is
respelled with another binding strength the fidelity gate checks that its two operands are atomic and bordered. An
AND borders only when it is not the AND of a BETWEEN. The grammar of BETWEEN is a forward count of the ANDs still
owed; the backward scan is proved against it. A reading by operator strength then gives one tree for every strength
tighter than the separators.

**Spelling comparison** (`Fidelity`). The multiset comparison of the input's and the output's spellings.

**Number keys** (`Rational`, `NumberKey`). The key by which two spellings of one number are compared: underscores,
radixes, zeros and exponents read exactly. The key is canonical for the literal's class and exact rational value.

**Replacing nondeterminism** (`Materializer`). The walk that puts literals in place of `now()`, `rand()` and their
like, in place and drawing from four pools: it is the left-to-right filling of the statement's places, each pool is
used from its start, the records are numbered in order, and a second run does nothing.

**Loader hash tables** (`LoaderImage`, `SysVHash`, `GnuHash`). The two validators of an ELF file's symbol hash
tables, with 64-bit addresses: a variable of type `U64` cannot wrap. The System V table is the one of chapter 5,
"Dynamic Linking", of the System V gABI.

**Escapes** (`Utf8`, `Escapes`). Two decoders of quoted lexemes, when they agree, and four printers they undo.
UTF-8 is that of section 4 of RFC 3629.

**Splicing** (`TokenStream`, `Splice`). Character spans to byte spans, table spans of a command, and the two ways
of editing a text, each proved equal to one simultaneous substitution.

`Common` holds Option, Result, bytes and Go's order of strings.

## Where the code differs from what is expected of it

- A `\X` escape is read as hexadecimal by one decoder and kept as written by the other
  (internal/engine/nameescape.go:47, internal/engine/regenerated_lexeme.go:137). `Escapes.DecodersAgree` shows that
  they agree on a lexeme if and only if it holds no such escape.
- A WITH value whose only names are table operands becomes a constant once those operands are read through remote().
  The rewriting walk classifies the value after rewriting it, so it can bind a name the collecting walk left free,
  and then never asks about an operand of that name (internal/engine/nodes.go:1748-1755, 3207-3222).
  `ReadCounterexample.RemoteOperandHidesAReference` is such a statement. `ReadRewrite.DefinitionKept` says exactly which
  definitions declare something else, and `ReadDecided.AsksExactlyWhatIsCollected` exactly which statements are asked
  about what they were collected with.
- A recursive WITH declares its names before its values are rewritten, so its statement is rewritten in the scopes it has
  as written; but the rewritten statement declares them from the new values, and a reference that was kept can end up
  bound by a value that became a constant (internal/engine/nodes.go:1741-1747).
  `ReadCounterexample.RecursiveCapturesKeptName` is such a statement, and `ReadCapture.AskedAndLeftExactly` says exactly
  when all is asked about and nothing captured.
- Fields that are known but not walked are not checked either, so a read in one is overlooked: `ReadMissed.OptionIsMissed`
  is an accepted SELECT with a query in its OPTION (internal/engine/nodes.go:1645-1653).
- A rename without a database keeps the old database of a FROM table but drops that of an IN operand
  (internal/engine/nodes.go:3062-3066, 3159-3164), although the decision's documentation speaks of keeping it;
  `ReadRewrite.RenameKeepsDatabase` says when it is kept.
- spellingDiff's keys do not depend on token order, but the texts it shows do (`Fidelity.ShownTextDependsOnOrder`),
  unless each reported key is spelled one way on its side (`Fidelity.ShownIgnoresOrderExactly`).
- A query put in place of an infix IN operand carries no opaque marker, so a later collection finds its tables
  (internal/engine/nodes.go:3173-3186); `ReadResult.CollectAfterRewrite` says exactly which, and where.
- The analyzer checks an alias written inside an ON condition against the relations joined so far, not against
  later ones (internal/engine/snapshot_query.go:876-888, 637). `SnapshotLateAlias.LateAliasBreaksTyping` is an accepted
  query typed String that yields a number. Preparing such a query still preserves its meaning; only the typing theorems
  ask for `AliasesClear`, of the query and the definitions it uses and of the aliases its columns name, and
  `SnapshotMeaning.SelectSafeExactly` shows that this is all the prefix check leaves open.
- The analyzer demands distinct qualifiers, but two bindings to tables of one name in different databases leave the
  prepared query with two unaliased tables of that name (internal/engine/snapshot_query.go:1137-1153);
  `SnapshotScope.PreparedQualifiersDistinct` says exactly when.
- `snapshotTemporalType` slices out of range on the eleven characters `DateTime(')` and on no other text
  (internal/engine/snapshot_query.go:1215-1216; `SnapshotPlan.SlicesExistExactly`); the model refuses that type.
- A name between English quotes is called exact without a check, so it is not UTF-8 when the lexeme is not
  (internal/engine/nameescape.go:163-172; `Escapes.CurlyIsUtf8Exactly`), although exact is documented as valid UTF-8.

## Model

| member | source | states |
|---|---|---|
| SnapshotIntegers.SmallestIsNarrowest | internal/engine/snapshot_query.go:1079-1090 | every literal in the UInt64 or Int64 range gets a type of its sign that holds it, and none narrower does |
| SnapshotIntegers.DecimalRoundTrip | internal/engine/snapshot_query.go:1161-1161 | the decimal text put into accurateCast reads back as the literal, for every integer |
| SnapshotScope.HitsAligned | internal/engine/snapshot_query.go:823-848 | two lists of columns that agree on the used qualifiers give a reference the same candidates |
| SnapshotScope.QualifierStable | internal/engine/snapshot_query.go:1142-1152 | a renamed table answers to exactly the used qualifiers it answered to before, thanks to the alias inserted |
| SnapshotScope.PreparedQualifiersDistinct | internal/engine/snapshot_query.go:1137-1153 | two prepared relations share a qualifier if and only if both are unaliased tables that take the same scratch name |
| SnapshotScope.SlotsAligned | internal/engine/snapshot_query.go:656-665 | preparing any prefix of a SELECT's relations moves no qualifier a column uses |
| SnapshotScope.SourceAliasSafe | internal/engine/snapshot_query.go:876-888 | every alias of an accepted expression passes the shadowing check against the relations it was analyzed with |
| SnapshotScope.PrepAliasSafe | internal/engine/snapshot_query.go:1123-1153 | the shadowing check still holds after the relations were renamed |
| SnapshotScope.AliasHarmless | internal/engine/snapshot_query.go:876-888 | substituting a checked alias for a column that resolves gives that column's value |
| SnapshotMeaning.PresExpr | internal/engine/snapshot_query.go:769-1060 | an accepted expression has the same value before and after preparing, on every row where its unqualified columns denote the same on both sides |
| SnapshotMeaning.PresAliases | internal/engine/snapshot_query.go:876-888 | the aliases written in an accepted expression have the same values before and after preparing, over any aligned columns |
| SnapshotMeaning.SelectReady | internal/engine/snapshot_query.go:606-665 | in an accepted SELECT and its preparation all aliases outside the projection agree over every prefix of the relations |
| SnapshotMeaning.PresRel | internal/engine/snapshot_query.go:691-759 | a table, CTE reference or derived table yields the same rows read from its scratch copy |
| SnapshotMeaning.PresWith | internal/engine/snapshot_query.go:509-554 | after dropping unused definitions, every name in scope that is kept denotes the same table, shadowing included |
| SnapshotMeaning.SelectSafeExactly | internal/engine/snapshot_query.go:631-641 | every alias that an unqualified column of an accepted SELECT names passes the check against all its relations if and only if those in ON conditions pass it against the later ones |
| SnapshotMeaning.PresSource | internal/engine/snapshot_query.go:606-665 | FROM, ALL INNER JOIN and WHERE give the same rows, each column under its own relation |
| SnapshotMeaning.PresQuery | internal/engine/snapshot_query.go:555-690 | a SELECT or UNION ALL gives the same rows before and after |
| SnapshotTyping.TypedExpr | internal/engine/snapshot_query.go:769-1060 | where the aliases its columns name are harmless, an accepted expression evaluates, if at all, to a value of the analyzed type, NULL only where the analysis says so |
| SnapshotTyping.TypedQuery | internal/engine/snapshot_query.go:555-690 | every row of an accepted query fits the analyzed columns, when the ON aliases its columns name are clear in it and in the definitions it uses |
| SnapshotLateAlias.LateAliasBreaksTyping | internal/engine/snapshot_query.go:631-641 | an accepted query with an ON alias that is not clear yields a value of another type than the analyzed one |
| SnapshotClosure.WholeQuery | internal/engine/snapshot_query.go:184-192 | the used definitions are closed under use, and the table ids of a query are exactly those of its bound tables |
| SnapshotOutput.LiteralKnown | internal/engine/snapshot_query.go:774-807 | a column the analyzer calls a literal evaluates to that literal on every row |
| SnapshotOutput.OutputProject | internal/engine/snapshot_query.go:1154-1168 | evaluating the permuted and cast projection is permuting and casting the evaluated row |
| SnapshotOutput.OutputQuery | internal/engine/snapshot_query.go:1154-1168 | the rewritten leaves of a query give its rows in target order, cast, failing on one row exactly when the casts do |
| SnapshotPlan.SlicesExistExactly | internal/engine/snapshot_query.go:1214-1221 | the slices taken of a type's text are in range for every text but one |
| SnapshotPlan.OrderIsPermutation | internal/engine/snapshot_query.go:313-333 | every projection of an accepted statement feeds exactly one target column |
| SnapshotPlan.HoistMeaning | internal/engine/snapshot_query.go:1169-1194 | moving the INSERT's WITH onto the query, or selecting everything from a query that has one under it, evaluates the query under the INSERT's CTEs |
| SnapshotPlan.PreparePreservesMeaning | internal/engine/snapshot_query.go:1123-1200 | the prepared SELECT gives, on any database holding the copies, the rows the statement inserts, in target order and cast |
| SnapshotPlan.PrepareSucceedsExactly | internal/engine/snapshot_query.go:1137-1141 | preparing an analyzed plan succeeds if and only if every id it reads has a binding |
| SnapshotPlan.OutputConforms | internal/engine/snapshot_query.go:471-508 | a value whose column passed the output check is, after its cast, non-NULL and exactly of the target type |
| SnapshotPlan.PreparedRowsConform | internal/engine/snapshot_query.go:343-360 | with such clear ON aliases, every row the prepared SELECT yields has a non-NULL value of exactly the target type in each column |
| SnapshotBindings.ReadIdsSorted | internal/engine/snapshot_query.go:361-368 | the read ids are the ids of the bound tables, each once, in byte order |
| SnapshotBindings.BindScratch | snapshot_query.go:157-172 | the check succeeds exactly when there is one usable scratch table of its own per read id, in order, and returns that map |
| SnapshotBindings.CheckedBindingsSuffice | snapshot_query.go:157-172 | with checked bindings, the missing-binding branch of Prepare is never taken |
| SnapshotBindings.RenamedTwice | internal/engine/snapshot_query.go:1137-1153 | renaming a table object twice is renaming it once |
| SnapshotBindings.RenameBound | internal/engine/snapshot_query.go:1137-1153 | the loop renames every listed object exactly once in effect, fails exactly on a missing binding, and touches nothing else |
| SnapshotMaterialize.QueryFilled | internal/engine/snapshot_lexemes.go:223-291 | the walk over a query is the left-to-right filling of its literals and volatile calls from the pool |
| SnapshotMaterialize.FillExact | internal/engine/snapshot_lexemes.go:252-265 | filling succeeds exactly when the pool has an admissible value per volatile call; the n-th call takes the n-th value and nothing else changes |
| SnapshotMaterialize.PoolUsedExactly | internal/engine/snapshot_query.go:284-288 | an accepted statement has as many volatile calls as the pool has values, each replaced by its own |
| SnapshotResidual.NeverResidual | internal/engine/snapshot_query.go:1031-1035 | once the prepass went through, no analysis fails with residual volatility |
| Brackets.ClosesIsNested | internal/engine/wholestmt.go:130-148 | the stack reading accepts exactly the well-nested streams of three bracket kinds |
| Brackets.CheckBrackets | internal/engine/wholestmt.go:130-148 | the check succeeds exactly on well-nested streams |
| Precedence.PairingIsOwed | internal/engine/regenerated_precedence.go:164-175 | pairing BETWEEN and AND along the scanned chain gives exactly what the forward grammar says is owed |
| Precedence.IsLogicalAnd | internal/engine/regenerated_precedence.go:133-176 | true only for an AND no BETWEEN owns; false only if one does, or units do not match, or the level holds an unclassified token or nested BETWEEN |
| Isolation.OperandBefore | internal/engine/regenerated_precedence.go:27-51 | the longest accepted operand that ends there, or -1 when there is none |
| Isolation.OperandAfter | internal/engine/regenerated_precedence.go:55-79 | the longest accepted operand that starts there, or -1 when there is none |
| Isolation.Isolated | internal/engine/regenerated_precedence.go:108-121 | true only for an application between two operands and two borders; false only if there is none or its AND border is unproven |
| Regrouping.RightAndIsLogical | internal/engine/regenerated_precedence.go:84-104 | an AND right after an isolated application belongs to no BETWEEN |
| Regrouping.LeftBorder | internal/engine/regenerated_precedence.go:92-104 | a bracket level that reaches past an isolated application on the left holds a separator there |
| Regrouping.RightBorder | internal/engine/regenerated_precedence.go:92-104 | a bracket level that reaches past it on the right holds a separator there |
| Regrouping.IsolatedKeepsGrouping | internal/engine/regenerated_precedence.go:105-121 | any two strengths of an isolated operator that are tighter than the separators give the same tree |
| Fidelity.Tally | internal/engine/regenerated.go:731-747 | per key the surplus of the input over the output, and the text it is shown by |
| Fidelity.SpellingDiff | internal/engine/regenerated.go:731-771 | the sorted lists hold each key exactly as often as it was lost or added, AS and = and comma joins aside |
| Fidelity.EmptyDifference | internal/engine/regenerated.go:727-731 | nothing is lost or added if and only if the multisets are equal but for more AS and =, and CROSS and JOIN added in equal numbers |
| Fidelity.KeysIgnoreOrder | internal/engine/regenerated.go:753-764 | the two key lists do not depend on the order of the tokens |
| Fidelity.ShownIgnoresOrderExactly | internal/engine/regenerated.go:734-771 | every order of the tokens on both sides shows the same two lists if and only if each lost key is spelled one way in the input and each added key one way in the output |
| Fidelity.ShownTextDependsOnOrder | internal/engine/regenerated.go:734-747 | two spellings of one number are shown differently in two orders |
| NumberKey.UnderscoresBetweenDigits | internal/engine/regenerated_lexeme.go:353-369 | true if and only if every underscore stands between two digits of the literal's radix |
| Rational.ReducedIsCanonical | internal/engine/regenerated_lexeme.go:327-343 | two fractions have one form in lowest terms if and only if they have one value |
| NumberKey.KeyIsCanonical | internal/engine/regenerated_lexeme.go:327-345 | two numbers get one key if and only if they are of one class and one exact value |
| NumberKey.NumberKeyIsCanonical | internal/engine/regenerated_lexeme.go:301-346 | two accepted literals get one key if and only if both are 64-bit integers or both are not, and their values are equal |
| NumberKey.HexMantissaFits | internal/engine/regenerated_lexeme.go:332-338 | the mantissa of an accepted hexadecimal float fits the precision it is read with |
| NumberKey.UnderscoresIgnored | internal/engine/regenerated_lexeme.go:314-317 | a literal with well-placed underscores has the key of the one without |
| NumberKey.LeadingZeroIgnored | internal/engine/regenerated_lexeme.go:320-321 | a leading zero of a decimal integer does not change its key |
| NumberKey.IntegerIsItsKey | internal/engine/regenerated_lexeme.go:342-345 | every 64-bit integer written plainly in decimal is its own key |
| Materializer.Materializer.Value | internal/engine/materialize_values.go:17-134 | the literal a node gets, moving the counter of the pool it draws from and no other, with the errors in the source's order |
| Materializer.Materializer.Walk | internal/engine/materialize.go:71-163 | the walk in place computes the walk as a function of the tree and the counters, and fails with its first error |
| Materializer.WalkIsFilling | internal/engine/materialize.go:71-163 | a walk, over any tree and from any counters, is the left-to-right filling of the tree's places |
| Materializer.MaterializedExactly | internal/engine/materialize.go:38-59 | a run succeeds if and only if every node to replace finds an admissible value after those drawn before it; then the literals and the records are those of these nodes in order |
| Materializer.PoolsSuffice | internal/engine/materialize_values.go:91-134 | each pool is used from its start and never past its end |
| Materializer.OrdinalsCount | internal/engine/materialize.go:165-179 | the k-th record is numbered k, modulo 2^32 |
| Materializer.SecondRunIsIdle | internal/engine/materialize.go:38-59 | materializing what a run returned, with any inputs, replaces nothing |
| LoaderImage.LoadBytes | internal/engine/snapshot_elf_symbols_linux.go:30-49 | the bytes at an address, read from the first segment that covers them, within the size bound |
| LoaderImage.LoadedIsTheImage | internal/engine/snapshot_elf_symbols_linux.go:34-47 | what is loaded is the image byte for byte, at the address asked for |
| LoaderImage.RelocationSymbols | internal/engine/snapshot_elf_symbols_linux.go:261-276 | succeeds exactly when the entries are whole, loaded, and name symbols below the count |
| SysVHash.CycleNeverEnds | internal/engine/snapshot_elf_symbols_linux.go:138-145 | coming back to an index of the chain being followed means that no number of steps reaches 0 |
| SysVHash.Acyclic | internal/engine/snapshot_elf_symbols_linux.go:133-149 | the colouring accepts exactly the links whose every chain ends, marking each index at most once |
| SysVHash.SysVHashCount | internal/engine/snapshot_elf_symbols_linux.go:111-151 | for a readable table, the count if and only if every bucket and chain index is below it and every chain reaches 0 |
| GnuHash.ClearsLowestBit | internal/engine/snapshot_elf_symbols_linux.go:59-59 | the bloom test on bits is the power-of-two test |
| GnuHash.ChainEndIsFirstMark | internal/engine/snapshot_elf_symbols_linux.go:83-104 | a chain runs from its bucket's symbol to the first whose word has its low bit set, through loaded words only |
| GnuHash.WalkChain | internal/engine/snapshot_elf_symbols_linux.go:83-104 | follows one chain to its end, or stops at a symbol already visited or a chain that has no end |
| GnuHash.WalkBuckets | internal/engine/snapshot_elf_symbols_linux.go:70-110 | accepts exactly when all chains end and none share a symbol; the count is the larger of the offset and one past the last symbol, so the last test never fails |
| GnuHash.GnuHashCount | internal/engine/snapshot_elf_symbols_linux.go:50-110 | the same for the table at an address, with no address or size wrapping at 2^64 |
| Escapes.UnhexRulesAgree | internal/engine/nameescape.go:85-98 | the two hexadecimal rules agree modulo 256 on every pair of bytes, hex or not |
| Escapes.DecodeQuotedBody | internal/engine/nameescape.go:197-229 | the value of the escape grammar, rejected exactly when the grammar does not end with the last byte, exact exactly when it is UTF-8 |
| Escapes.ClickhouseUnquote | internal/engine/regenerated_lexeme.go:116-161 | the value of the other decoder's grammar |
| Escapes.NeverLonger | internal/engine/nameescape.go:195-229 | where both decoders accept, the hexadecimal reading is never the longer |
| Escapes.DecodersAgree | internal/engine/regenerated_lexeme.go:116-161 | on a lexeme the second decoder accepts, the first gives the same value if and only if no `\X` escape is met |
| Escapes.QuoteIdentifierSql | internal/engine/nameescape.go:231-257 | writes each byte as the printer's spelling table says |
| Escapes.TwoReplacementsAreOne | internal/handlers/dblevel.go:632-634 | doubling backslashes and then replacing quotes writes every byte once |
| Escapes.QuotedIsReadBack | internal/engine/nameescape.go:231-257 | every printed lexeme of every style is read back whole, by both decoders, as the bytes it was printed from |
| Escapes.QuotingIsInjective | internal/engine/view_columns.go:189-193 | no two byte strings are printed alike |
| Escapes.DecodeQuotedIdentifier | internal/engine/nameescape.go:163-182 | the name between English quotes as it stands, else the decoded non-empty name, exact for UTF-8; everything else rejected |
| Escapes.CurlyIsUtf8Exactly | internal/engine/nameescape.go:163-172 | an exact name between English quotes is UTF-8 if and only if the lexeme is |
| Escapes.IdentifierRoundTrip | internal/engine/nameescape.go:231-257 | a non-empty UTF-8 name printed and decoded is that name, exactly |
| TokenStream.OffsetsRise | internal/engine/writes.go:1231-1238 | byte offsets rise strictly with character positions |
| TokenStream.NewTokenStream | internal/engine/writes.go:1231-1238 | the table holds the byte offset of every character and of the end |
| TokenStream.ByteRange | internal/engine/writes.go:1242-1251 | found exactly for ranges inside the text, and the bytes found hold exactly that many characters |
| TokenStream.OffsetsAreBoundaries | internal/engine/writes.go:1226-1251 | in UTF-8 text every offset splits the text into two UTF-8 texts |
| Splice.ScanTableRefs | internal/engine/writes.go:1280-1314 | the name runs after TABLE or TABLES, only the first for single-target commands |
| Splice.RefsAreOrdered | internal/engine/writes.go:1291-1313 | the spans are in order, apart and inside the text |
| Splice.EveryNameIsInARef | internal/engine/writes.go:1293-1312 | for RENAME and EXCHANGE no name token after TABLE lies outside every span |
| Splice.RawTableRefs | internal/engine/writes.go:1321-1341 | the targets of those spans, in order |
| Splice.EditInPlace | internal/engine/writes.go:1373-1384 | one edit from the right extends the simultaneous substitution by one span |
| Splice.SpliceRawTables | internal/engine/writes.go:1357-1386 | fails exactly when a reported target is undecided, and otherwise is the simultaneous substitution |
| Splice.KeepingIsIdentity | internal/engine/writes.go:1380-1382 | spans kept as written leave the text as it was |
| Splice.UneditedByteSurvives | internal/engine/writes.go:1383-1383 | every byte outside the spans is found again, moved by what the edits before it added |
| Splice.RenderReplacements | internal/engine/lexical.go:2354-2365 | the left-to-right rendering is the same substitution, and fails exactly on empty, overlapping or outlying replacements |
| Splice.OrderIsUnique | internal/engine/lexical.go:2352-2352 | however the unstable sort leaves equal starts, an accepted rendering has one order |
| FreeNames.SetsAreLookups | internal/engine/nodes.go:1771-1796 | the three scope sets hold exactly the names that looking up the declarations passed would bind |
| FreeNames.KidScopeIsEnter | internal/engine/nodes.go:1723-1769 | the scope a field is walked in is what the declarations on the way make of the node's own, sequential and recursive WITH, view bodies and unbound positions included |
| FreeNames.ReferencesAreFreeNames | internal/engine/nodes.go:2209-2224 | the references of a walk, of a statement or of a part where nothing binds, are exactly the places that mention a table no declaration on their path binds |
| FreeNames.UnboundBindsNothing | internal/engine/nodes.go:1212-1236 | where names do not bind, every table mentioned outside view() is a reference, whatever WITH and projections stand around it |
| FreeNames.WalkIsDistinct | internal/engine/nodes.go:1629-1696 | no place is reported twice |
| ReadCoverage.FoundReadIsThere | internal/engine/nodes.go:2837-2881 | a tree said to contain a read has one outside every opaque subquery |
| ReadCoverage.ReadIsFound | internal/engine/nodes.go:2837-2881 | and a tree that has one is said to |
| ReadCoverage.GivesUpExactly | internal/engine/nodes.go:2810-2827 | the walk gives up if and only if a node it goes to holds a read in an unknown field or is an unmodelled node holding one |
| ReadFields.WalkedFieldIsKid | internal/engine/nodes.go:1602-1643 | each field under a walked key is visited once, at the place the walk's order gives it |
| ReadMissed.EntersUnlessNamed | internal/engine/nodes.go:2558-2602 | every field under a walked key is entered, but for an operand taken as a name or a parameter |
| ReadMissed.MissedExactly | internal/engine/nodes.go:1576-1696 | a read of an accepted statement is missed if and only if the way to it leads through a known but unwalked key, an unknown key in an unchecked position, or an operand taken as a name |
| ReadMissed.OptionIsMissed | internal/engine/nodes.go:1645-1653 | an accepted SELECT whose OPTION holds a query that is not collected |
| ReadRewrite.QueriesKept | internal/engine/nodes.go:2010-2035 | rewriting turns no scalar value into a query or a query into something else |
| ReadRewrite.RenameKeepsDatabase | internal/engine/nodes.go:3062-3066 | a rename that gives no database keeps the reference's if and only if it stands in FROM or had none |
| ReadRewrite.NamesLeft | internal/engine/nodes.go:1984-2008 | a rewritten value names something if and only if one of its naming nodes is no operand read through remote() |
| ReadRewrite.ValueClassified | internal/engine/nodes.go:1809-1869 | a rewritten WITH value counts as no table if and only if it did before or all its names are gone |
| ReadRewrite.DefinitionKept | internal/engine/nodes.go:1771-1796 | a definition declares after rewriting what it declared before if and only if it does not become a value alias |
| ReadRewrite.ScopeKept | internal/engine/nodes.go:1748-1755 | where no definition becomes an alias, every field is rewritten in the scope it has in the statement as written |
| ReadRewrite.AsksWhatIsCollected | internal/engine/nodes.go:3018-3042 | then decide is asked about exactly the references collected, in that order and in the same scopes, and the rewrite gives up where collecting does |
| ReadDecided.PassedIsForetold | internal/engine/nodes.go:1748-1755 | the scope a field is rewritten in can be told from the statement as written and the decisions |
| ReadDecided.AsksExactlyWhatIsCollected | internal/engine/nodes.go:3018-3042 | for any decisions, decide is asked about exactly the references collected if and only if every mentioned table is bound in its foretold scope just when it is bound as written |
| ReadAgain.AgainIsForetold | internal/engine/nodes.go:1735-1769 | the scope a field of the rewritten statement is walked in, recursive definitions included, can be told from the statement as written and the decisions |
| ReadAgain.AgainWithin | internal/engine/nodes.go:1771-1796 | that scope binds every name bound where the field was rewritten |
| ReadAgain.DecidedWithin | internal/engine/nodes.go:1771-1796 | and the scope a field is rewritten in binds every name bound in the statement as written |
| ReadResult.CollectAfterRewrite | internal/engine/nodes.go:3060-3226 | for any decisions, collecting the rewritten statement finds in order and in place of each reference asked about exactly what the decision put there, unless the second walk binds that name |
| ReadCapture.RewriteIsCaptureFree | internal/engine/nodes.go:3014-3042 | with qualified renames and no query in an infix IN, the rewritten statement is accepted, and what is collected from it is each decided name at its place if and only if, of the references collected, every kept one is free in the second walk and every renamed one while rewriting |
| ReadCapture.AskedAndLeftExactly | internal/engine/nodes.go:3014-3042 | then too, exactly the references collected are asked about and exactly the decided names left, if and only if every mention is bound while rewriting just when it is as written and every kept name is free in the second walk |
| ReadCounterexample.RemoteOperandHidesAReference | internal/engine/nodes.go:1748-1755 | a statement for which remote() in a WITH value keeps decide from being asked about a collected reference |
| ReadCounterexample.RecursiveCapturesKeptName | internal/engine/nodes.go:1741-1747 | a WITH RECURSIVE statement all of whose references are asked about and one of whose kept references is bound afterwards |
| ReadCounterexample.DefinitionBecomesAlias | internal/engine/nodes.go:1748-1755 | the definition of that statement is one that becomes an alias |

## Left out

- The parser, tokenizer and generator, JSON decoding, the text of errors and the wire format: their trees and tokens are inputs.
- Other statements of the compiler's entry (USE, ordinary statements), identifier normalisation before printing, and binding number tokens to literals: they leave the analysed tree as it is.
- The lists of fields a node may have inactive: a node with an active unsupported field is an `Unsupported` constructor of the model's tree.
- `allCTEs` only changes which refusal a missing table gets, and the union expression that starts with a scalar subquery is always refused; neither is modelled.
- When several read tables are ineligible Go reports one of them in map order; the model reports their column type.
- The analyzer edits JSON maps as it goes; the model returns annotated trees instead. Updates in place are modelled for Prepare's renaming (`SnapshotBindings.RenameBound`) and for the hash-table colouring. What is not captured is two references sharing one object elsewhere.
- RenameBound: leaves the qualified column objects alone, because a relation with one always keeps an alias and the source's loop over them never runs.
- `rand` nodes carry no arguments, and only rand, rand32 and rand64 are volatile; other volatile names are refused by the analyzer anyway.
- IsLogicalAnd: refuses more than it must; which AND is owed in a level with unclassified tokens is not decided.
- IsolatedKeepsGrouping: speaks of streams whose brackets and CASE … END match, whose `{name:Type}` parameters are not named case or end, and in which IS [NOT] DISTINCT is followed by FROM; operators of equal strength are read to the left.
- The ternary rule (`ternaryColon`), keyword columns as names and the table of respellings itself.
- snapshotELFSymbolExtent: it compares the counts and sizes of the pieces modelled here.
- Bare table payloads outside a `table` wrapper, dictionaries, engine properties and INSERT, UPDATE, DELETE, CREATE: the walk is modelled from a read query down.
- Which JSON keys name which shape of scalar node (`add`, `sub`, … are binary) is a table; `ReadFields` has the fields of each shape. Keys beside the one that names a node's kind, and reads held by ENGINE and dictionary properties, are not modelled.
- A decision that lacks its remote() arguments or its query leaves the reference as written; that is `Skip`.
- The statement tree is rewritten on values: the in-place change of shared maps is not captured, only its order (a WITH value is rewritten before it is classified).
- Namespace, parameter and table-function visitors of the walk; only table references are collected.
- Which names are nondeterministic, and which of them have a literal, is a table (`materialize_nodes.go`), and the shortest text of a float comes from the Go library: both are inputs of `Materializer`.
- A run of the materializer that fails may leave counters moved and nodes replaced in place; its caller drops the tree, and the model says only which error it is.
- Hex and bit strings and heredocs.
- The recognition of LIVE VIEW aliases and JOIN modifiers: their replacements are inputs of `Splice.RenderReplacements`.
