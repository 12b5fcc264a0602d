# Objectified: model and proofs

This project models the logic of Objectified's servers and studio that surrounds the database, HTTP
and user-interface layers, and proves what that logic promises. `dafny verify dfyconfig.toml`
checks all of it.

- **OpenAPI references** (`JsonPointer`, `RefResolver`, `RefLoops`, `OperationDetail`): how the describe-operation
  tool expands document-internal `$ref`s with a cycle stack, follows path-item chains and merges
  parameters.
- **Migrations** (`Iteration`, `Checksum`, `ScriptText`, `Migration`, `MigrationRuns`,
  `MigrationRecords`): the CRC-32 of
  a script and the status, apply and repair operations over a history table.
- **List tools and authorization** (`Scopes`, `Sql`, `SpecAuthorization`, `Cursor`, `RowCursors`,
  `Keyset`, `Grouping`, `Catalog`, `SpecList`, `ProjectList`, `TagList`): scopes compiled to SQL
  conditions with positional parameters, and keyset pagination over specs, projects and tags.
- **Backup and recovery** (`PointInTime`, `DumpChain`, `Retention`): event replay up to a cutoff, the
  chain of full dumps and patches, and retention.
- **Schema diff and merge** (`SchemaDiff`, `ClassDiff`, `BreakingChanges`, `ChangeKinds`,
  `MergeConflicts`): the diff
  of component schemas, its per-class views, the breaking-changes document and the merge gate.
- **Canonical JSON, fingerprints, streams, checklists** (`JsonText`, `StableJson`,
  `StudioFingerprint`, `FingerprintCache`, `SseStream`, `LiveChecklist`, `PropertyRows`).

`Prelude`, `Json`, `Sorting` and `Filters` are shared. A method that changes state or loops is proved
against a specification function; the lemmas then say what that function is worth.

## Assumptions

Everything outside is a parameter, with these laws at most:

- `apply(o, diff(o, n)) == n` for the dump tools. Where a condition is shown necessary, a patch applied
  to different texts also gives different texts.
- A database transaction: rollback restores what stood at its start, and a failed commit leaves
  nothing. A script leaves transactions and the history table alone; one that fails can leave any state.
- `fromisoformat` reads back what `isoformat` prints of an instant in UTC, and no `Z` is printed; the UUID
  library reads back the canonical text of every identifier in the catalog. Nothing is assumed of the
  tag cursor.
- Text comparison by locale or database collation is some strict total order on strings.
- The SHA-256 hash, the wording of a bullet and the contents of a streamed event are arbitrary functions.
- `JSON.stringify` of two parsed values gives equal text exactly when the values are equal, key order
  included, where the schema diff compares by text. (The canonical printer's text is proved.)
- Instants, days and JSON numbers are integers. Identifiers are their canonical text. White space is
  Python's or JavaScript's, as the source has it; letter case and digits are those of ASCII.

## Where code and documentation differ

The model follows the code.

- The comment that resolving twice is harmless holds exactly when the first result is settled
  (`RefResolver.SecondPassExact`, `OperationDetail.FragmentsStayExact`). On documents whose refs can be
  ranked and whose `$ref` members are strings it fails only under an operation whose own refs end in an
  unresolvable one (`OperationDetail.SecondPassIsNoOp`). It also fails on some cyclic documents
  (`RefResolver.CyclicIsNotFixed`), though not on all (`RefResolver.SelfAliasIsFixed`,
  `RefResolver.GatheringLoopIsFixed`); where refs have no siblings, `RefLoops.SecondPassOnLoops` reads the
  condition off the raw node. And it fails on an object under `$ref`
  (`RefResolver.ObjectUnderRefIsNotFixed`).
- Line endings are said not to matter to the checksum. A CR terminator followed by an empty line that
  ends in LF reads as one CRLF (`ScriptText.EmptyLineIsLost`, `ScriptText.EndingsChecksumApart`);
  `ScriptText.LineEndingsExact` is the exact condition on the text.
- After repair the status check passes unless two files share an applied version and differ in
  checksum (`MigrationRuns.RepairedStatusExact`, `MigrationRuns.RepairLeavesMismatch`).
- A denied scope is not stored as such: it reads back as an unrestricted one (`Scopes.StoredScopeExact`).
  A list that holds no string restricts nothing (`Scopes.ListWithoutNamesAllows`).
- `lastEventAt` is called the time of the newest event applied; the code takes the newest of the
  records' last events in sequence order (`PointInTime.LastEventExact`, `PointInTime.LastEventIsNotNewest`).
- The prior dump is said to be strictly before today; the code takes the last entry that is not of
  today, which is earlier exactly when no entry is later (`DumpChain.PriorIsEarlierExact`). A run for an
  earlier day can then break the chain (`DumpChain.RunBetweenFulls`, `DumpChain.BackwardDayBreaksChain`);
  `DumpChain.RunKeepsGoodExact` is the exact condition.
- A class whose `type` or `description` is an array or object always shows as modified, equal or not:
  the code compares references (`SchemaDiff.NoChanges`, `SchemaDiff.ListTypeIsModified`), so a target with
  one never merges automatically (`BreakingChanges.SelfMergeExact`, `BreakingChanges.ListTypeNeverMerges`).
- The grouping key of kinds does not tell them apart: any two or more share it with the one kind that is
  their text joined by bars (`MergeConflicts.TwoKindsShare`); `MergeConflicts.SignatureIsSharedExact` is the
  exact condition. Kinds without bars it does tell apart (`MergeConflicts.SignatureExact`).

## Model

| member | source | states |
|---|---|---|
| JsonPointer.FollowPointer | objectified-mcp/src/objectified_mcp/spec_describe_operation_tool.py:17-36 | the token loop finds the value that the pointer's tokens name one after the other, and nothing on a scalar, a missing key or a bad list index |
| JsonPointer.EscapeRoundTrip | objectified-mcp/src/objectified_mcp/spec_describe_operation_tool.py:23 | replacing `~1` and then `~0` undoes the escaping of section 3 of RFC 6901 for every key |
| JsonPointer.PointerFindsPath | objectified-mcp/src/objectified_mcp/spec_describe_operation_tool.py:17-36 | for every path of keys, whatever characters they hold, the pointer written for it evaluates to the value reached key by key |
| JsonPointer.PointerFindsSteps | objectified-mcp/src/objectified_mcp/spec_describe_operation_tool.py:17-36 | for every path of object members and list indices, the pointer written for it, indices in decimal, evaluates to the member or item they lead to one by one |
| JsonPointer.PointerMisses | objectified-mcp/src/objectified_mcp/spec_describe_operation_tool.py:17-36 | one step too far, past the end of a list, at a missing member or on a scalar, finds nothing |
| JsonPointer.PyIntExact | objectified-mcp/src/objectified_mcp/spec_describe_operation_tool.py:27-33 | a token is an index exactly when, outer spaces aside, it is an optional sign and digits with single underscores between them, read in base ten |
| JsonPointer.TextMissesList | objectified-mcp/src/objectified_mcp/spec_describe_operation_tool.py:27-33 | a token that is no integer, or a negative one, finds nothing in a list |
| RefResolver.LeftoverIsCyclic | objectified-mcp/src/objectified_mcp/spec_describe_operation_tool.py:45-62 | in documents and nodes whose `$ref` members are strings, whatever resolvable internal ref survives resolution, under any stack, lies on a cycle of the reference relation |
| RefResolver.AcyclicIsNormal | objectified-mcp/src/objectified_mcp/spec_describe_operation_tool.py:39-62 | when `$ref` members are strings and refs can be ranked, resolution leaves no resolvable internal ref outside the verbatim copy of a dangling node |
| RefResolver.FixedIsNormal | objectified-mcp/src/objectified_mcp/spec_describe_operation_tool.py:39-62 | on such documents a value resolves to itself exactly when it holds no resolvable internal ref outside a dangling node |
| RefResolver.SettledExact | objectified-mcp/src/objectified_mcp/spec_describe_operation_tool.py:39-62 | on every document and under every stack of resolvable refs, a value resolves to itself exactly when it is settled, which is read off the value and the chains of refs that leave it |
| RefResolver.SecondPassExact | objectified-mcp/src/objectified_mcp/spec_describe_operation_tool.py:138-139 | on every document, resolving the result again changes nothing exactly when the result is settled |
| RefResolver.NormalIsFixed | objectified-mcp/src/objectified_mcp/spec_describe_operation_tool.py:39-62 | a value without resolvable internal refs resolves to itself |
| RefResolver.ResolveTwice | objectified-mcp/src/objectified_mcp/spec_describe_operation_tool.py:138-139 | when `$ref` members are strings and refs can be ranked, resolving the result again changes nothing |
| RefResolver.StackIsIrrelevant | objectified-mcp/src/objectified_mcp/spec_describe_operation_tool.py:47-54 | on ranked documents the cycle stack never influences the result |
| RefResolver.RefIsTransparent | objectified-mcp/src/objectified_mcp/spec_describe_operation_tool.py:53-58 | on ranked documents a ref means its resolved target overlaid with its siblings, each resolved on its own |
| RefResolver.CyclicIsNotFixed | objectified-mcp/src/objectified_mcp/spec_describe_operation_tool.py:48-49 | a cyclic document on which the second pass does change the result |
| RefResolver.SelfAliasIsFixed | objectified-mcp/src/objectified_mcp/spec_describe_operation_tool.py:48-49 | a cyclic document, a ref to itself, that the second pass leaves alone |
| RefResolver.GatheringLoopIsFixed | objectified-mcp/src/objectified_mcp/spec_describe_operation_tool.py:48-59 | a loop of refs with a sibling on it is kept with the sibling gathered into it, and the second pass leaves that alone |
| RefResolver.GatheringLoopExists | objectified-mcp/src/objectified_mcp/spec_describe_operation_tool.py:48-59 | a document with such a loop |
| RefResolver.EndsDanglingExact | objectified-mcp/src/objectified_mcp/spec_describe_operation_tool.py:41-59 | with string `$ref` members, a result is an unresolvable ref exactly when the chain of refs from the raw value ends in one |
| RefResolver.ObjectUnderRefIsNotFixed | objectified-mcp/src/objectified_mcp/spec_describe_operation_tool.py:46-59 | an acyclic document with an object under `$ref` on which the second pass changes the result |
| RefLoops.KeptComesRound | objectified-mcp/src/objectified_mcp/spec_describe_operation_tool.py:45-62 | where refs stand alone, each resolvable ref that the first pass keeps is one that some walk along the raw refs comes to a second time |
| RefLoops.WalkIsKept | objectified-mcp/src/objectified_mcp/spec_describe_operation_tool.py:45-62 | and a walk over fresh refs that then meets one of its own keeps that one |
| RefLoops.SecondPassOnLoops | objectified-mcp/src/objectified_mcp/spec_describe_operation_tool.py:138-139 | where refs stand alone, cyclic or not, resolving the result again changes nothing exactly when every ref that some walk from the raw node comes to a second time is an alias of an alias, and so on, back to itself |
| OperationDetail.FollowPathItem | objectified-mcp/src/objectified_mcp/spec_describe_operation_tool.py:65-79 | the loop returns what the recursive account of the path-item chain returns |
| OperationDetail.PathItemExact | objectified-mcp/src/objectified_mcp/spec_describe_operation_tool.py:65-79 | a path item is found exactly when a chain of resolvable internal refs leads to it; such a chain holds no ref twice, and it and the item are the only ones |
| OperationDetail.MergeParameters | objectified-mcp/src/objectified_mcp/spec_describe_operation_tool.py:82-106 | the overwrite-in-place loop gives the slots of the combined list in order of first appearance, each filled by the last parameter with its key |
| OperationDetail.MergedKeysAreUnique | objectified-mcp/src/objectified_mcp/spec_describe_operation_tool.py:90-106 | after the merge no two parameters share name and location, and every key of either list is kept |
| OperationDetail.OperationWins | objectified-mcp/src/objectified_mcp/spec_describe_operation_tool.py:82-106 | for each (name, in) the operation's own parameter wins over the path item's |
| OperationDetail.MergedNext | objectified-mcp/src/objectified_mcp/spec_describe_operation_tool.py:90-106 | parameter by parameter: one that shares name and location with an earlier one takes its place, any other comes last |
| OperationDetail.ExtractOperationDetail | objectified-mcp/src/objectified_mcp/spec_describe_operation_tool.py:109-153 | the detail is found exactly when method, path item and operation are, and holds the fragments computed by the specification functions |
| OperationDetail.LookupExact | objectified-mcp/src/objectified_mcp/spec_describe_operation_tool.py:109-126 | each of the eight methods finds the member of its own name under the path item, and no other method finds any |
| OperationDetail.LookupMisses | objectified-mcp/src/objectified_mcp/spec_describe_operation_tool.py:115-121 | without `paths`, or without the path in it, nothing is found |
| OperationDetail.LookupIgnoresCase | objectified-mcp/src/objectified_mcp/spec_describe_operation_tool.py:111 | spaces around the method and the case of its letters do not matter |
| OperationDetail.SecurityExact | objectified-mcp/src/objectified_mcp/spec_describe_operation_tool.py:143-153 | an operation's own security is the one shown, an empty list or null included; else the document's is |
| OperationDetail.FragmentsExact | objectified-mcp/src/objectified_mcp/spec_describe_operation_tool.py:141-151 | body and responses shown are the operation's members of those names |
| OperationDetail.SecondPassIsNoOp | objectified-mcp/src/objectified_mcp/spec_describe_operation_tool.py:128-153 | on ranked documents with string `$ref` members: re-resolving parameters, body or responses changes nothing exactly when the operation's own chain of refs does not end in an unresolvable one, or the raw fragment holds no resolvable ref |
| OperationDetail.FragmentsStayExact | objectified-mcp/src/objectified_mcp/spec_describe_operation_tool.py:128-153 | on every document, path item and operation: each of the three second passes changes nothing exactly when its fragment, for parameters each merged one, is settled |
| OperationDetail.DanglingOperationIsRaw | objectified-mcp/src/objectified_mcp/spec_describe_operation_tool.py:123-139 | an operation that is itself an unresolvable ref keeps its raw fragments, and the second pass leaves each alone exactly when the raw one, for parameters each merged raw one, is settled |
| OperationDetail.SecondPassExpandsDangling | objectified-mcp/src/objectified_mcp/spec_describe_operation_tool.py:138-139 | an operation of that kind with one ref parameter: the detail shows the target, so the second pass changed it |
| OperationDetail.DanglingOperationExists | objectified-mcp/src/objectified_mcp/spec_describe_operation_tool.py:109-139 | a concrete document in which looking up a path and method finds one |
| Checksum.BuildTable | objectified-db/src/migrate.ts:89-99 | the nested loops fill a table whose entry `n` is eight bit steps on `n` |
| Checksum.ComputeCrc | objectified-db/src/migrate.ts:109-114 | the table-driven loop equals the bit-at-a-time CRC-32 of section 8 of RFC 1952 on every byte sequence |
| Checksum.TableRound | objectified-db/src/migrate.ts:112 | one table round is eight bit-serial rounds on any 32-bit word and byte |
| Checksum.BurstIsDetected | objectified-db/src/migrate.ts:106-115 | two equally long texts that differ only within four consecutive bytes have different checksums |
| Checksum.KnownChecksums | objectified-db/src/migrate.ts:87-115 | the values of nothing, one line feed and two |
| ScriptText.ComputeChecksum | objectified-db/src/migrate.ts:106-115 | normalization, UTF-8 and the table loop together compute the CRC-32 of the normalized bytes |
| ScriptText.Utf8RoundTrip | objectified-db/src/migrate.ts:108 | reading the bytes as UTF-8 of section 3 of RFC 3629 gives back the code points of every text |
| ScriptText.LineEndingsExact | objectified-db/src/migrate.ts:107 | a file with mixed line endings normalizes to its LF form exactly when no CR terminator stands before an empty line that ends in LF |
| ScriptText.EmptyLineIsLost | objectified-db/src/migrate.ts:107 | a CR line before an empty LF line: normalization loses the empty line |
| ScriptText.EndingsChecksumApart | objectified-db/src/migrate.ts:106-115 | two empty lines, the first ended by CR and the second by LF: their checksum is not that of the LF form |
| ScriptText.LineEndingsChecksumAlike | objectified-db/src/migrate.ts:102-107 | files of the same lines under unambiguous line endings have one checksum |
| Migration.Database.GetMigrationStatus | objectified-db/src/migrate.ts:206-243 | applied and pending files in order, or the first file whose recorded checksum differs |
| MigrationRecords.StatusExact | objectified-db/src/migrate.ts:213-243 | row by row: the check fails exactly when the last successful row of some file's version has another checksum, a row without one passing; the files are parted by whether a row of their version succeeded |
| MigrationRecords.MismatchExact | objectified-db/src/migrate.ts:228-240 | the file reported is the first that changed, with the recorded and the current checksum |
| Migration.Database.ApplyOneFile | objectified-db/src/migrate.ts:265-292 | one transaction: wherever it fails, halfway through the script, in the rank query, the insert or the commit, script effect and history row stand together or not at all |
| Migration.Database.ApplyPendingMigrations | objectified-db/src/migrate.ts:294-330 | a run executes the pending files in order up to the first failure; a dry run and a refused run change nothing |
| MigrationRecords.RunRecords | objectified-db/src/migrate.ts:265-330 | a run applies a prefix of the pending files and appends one row for each, successful, with its own version, description, name and checksum |
| MigrationRecords.RunExecutes | objectified-db/src/migrate.ts:274-276 | the database afterwards is that of executing their texts once each, in order |
| MigrationRecords.RunRanks | objectified-db/src/migrate.ts:258-263 | ranks go on by one from the last, or from 1 |
| MigrationRecords.AppliedIsRecorded | objectified-db/src/migrate.ts:277-288 | with unique versions the last successful row of an applied file's version is its own, with its checksum |
| Migration.Database.RepairHistory | objectified-db/src/migrate.ts:345-385 | the row-by-row deletes and updates add up to dropping failed rows and realigning checksums, and report exactly those; when a read, a statement or the commit fails the table is as before |
| MigrationRecords.RepairedExact | objectified-db/src/migrate.ts:358-380 | repair leaves exactly the successful rows, the same but for the checksum, which is that of the last listed file of the version where there is one |
| MigrationRecords.FailedRanksExact | objectified-db/src/migrate.ts:359-364 | it reports the ranks of the failed rows, in order |
| MigrationRecords.RealignedExact | objectified-db/src/migrate.ts:365-376 | and the files whose checksum some successful row did not have |
| MigrationRuns.RetriesConverge | objectified-db/src/migrate.ts:258-330 | any series of runs, failing at any point of any transaction, leaves the next clean run with the same final database and history as one clean run |
| MigrationRuns.LastRunSettles | objectified-db/src/migrate.ts:258-330 | once a run succeeds, database and history are those of one clean run, nothing is pending, and further runs change nothing |
| MigrationRuns.ApplyKeepsRanks | objectified-db/src/migrate.ts:258-292 | ranks strictly increase and history only grows, by one row per applied file |
| MigrationRuns.RepairKeepsStatus | objectified-db/src/migrate.ts:345-385 | repair leaves the applied and pending files as they were |
| MigrationRuns.RepairedStatusExact | objectified-db/src/migrate.ts:228-240 | after repair the status check passes exactly when files that share an applied version share a checksum |
| MigrationRuns.TwoFilesOneVersion | objectified-db/src/migrate.ts:345-385 | two files of one applied version with different checksums: repair records that of the last, and the check then reports the other |
| MigrationRuns.RepairLeavesMismatch | objectified-db/src/migrate.ts:228-240 | a history of one row and two such scripts on which the check fails after repair |
| MigrationRuns.RepairMakesStatusPass | objectified-db/src/migrate.ts:345-385 | with unique versions the check after repair always passes |
| MigrationRuns.RepairTwice | objectified-db/src/migrate.ts:345-385 | repairing twice is repairing once |
| MigrationRuns.EditIsReported | objectified-db/src/migrate.ts:228-240 | an edit of an applied script within four bytes makes the next status check fail, and repair makes it pass again |
| MigrationRecords.EditAfterRunIsReported | objectified-db/src/migrate.ts:228-288 | after any run that applied a script, an edit of it within four bytes makes the next status check fail |
| Scopes.StoredScopeExact | objectified-mcp/src/objectified_mcp/scope.py:71-115 | writing a scope as JSON and parsing it gives the scope back exactly when it does not deny everything |
| Scopes.StoredDenialAllows | objectified-mcp/src/objectified_mcp/scope.py:71-85 | a deny-all scope that is stored reads back as one that allows everything |
| Scopes.ParsedScopeAllows | objectified-mcp/src/objectified_mcp/scope.py:60-115 | what a stored scope lets through, read off its JSON: each list must be missing, name the identifier, or name no string at all |
| Scopes.ListWithoutNamesAllows | objectified-mcp/src/objectified_mcp/scope.py:86-115 | a list of numbers reads back as no restriction |
| SpecAuthorization.ScopePredicateSql | objectified-mcp/src/objectified_mcp/spec_authorization.py:67-82 | the builder returns one parameter per placeholder, and unless the scope denies everything its condition keeps exactly the rows the scope allows |
| SpecAuthorization.ScopeSqlExact | objectified-mcp/src/objectified_mcp/spec_authorization.py:67-82 | the compiled scope keeps exactly the rows the scope allows |
| SpecAuthorization.PublicScopeSqlExact | objectified-mcp/src/objectified_mcp/spec_authorization.py:120-139 | the public fragment, deny-all included, keeps exactly the public rows `authorize_spec` accepts |
| SpecAuthorization.AuthorizedSqlExact | objectified-mcp/src/objectified_mcp/spec_authorization.py:85-117 | the full fragment, deny-all included, keeps exactly the rows `authorize_spec` accepts |
| SpecAuthorization.LabelExact | objectified-mcp/src/objectified_mcp/spec_authorization.py:24-64 | a visibility label counts as what it is trimmed and in lower case; any other, or none, is refused whatever the scope |
| SpecAuthorization.MissingIds | objectified-mcp/src/objectified_mcp/spec_authorization.py:38-64 | a missing identifier counts as the empty text |
| Prelude.LowerExact | objectified-mcp/src/objectified_mcp/spec_authorization.py:32 | lower case changes the capital letters of ASCII to their small ones and nothing else |
| Prelude.TrimSample | objectified-ui/lib/version-merge.ts:41 | spaces, tabs and line feeds go from both ends, and stay inside |
| Catalog.ParamsFallInPlace | objectified-mcp/src/objectified_mcp/spec_list_tool.py:238-253 | bound by position, the parameter tuple gives each branch of the query its own parameters and leaves none over |
| Catalog.PublicWhereExact | objectified-mcp/src/objectified_mcp/spec_list_tool.py:148-153 | the public branch keeps the rows of the wanted tenant and project that the caller may read |
| Catalog.PrivateWhereExact | objectified-mcp/src/objectified_mcp/spec_list_tool.py:162-178 | the private branch keeps the live private rows of the wanted tenant and project that the caller may read |
| Catalog.UnionExact | objectified-mcp/src/objectified_mcp/spec_list_tool.py:145-179 | the assembled `UNION ALL` yields each published row the caller may list exactly once, and no other |
| Catalog.ListedExact | objectified-mcp/src/objectified_mcp/spec_list_tool.py:148-196 | who may list what, field by field: live rows of the wanted tenant and project, public without a key, and with one those in its scope, private ones of its own tenant only |
| Cursor.PaddingRestored | objectified-mcp/src/objectified_mcp/spec_list_tags_tool.py:22-33 | unpadded base64url (section 5 of RFC 4648) decodes to the bytes once the padding is restored from the length |
| Cursor.EncodeVectors | objectified-mcp/src/objectified_mcp/spec_list_tool.py:47 | test vectors of section 10 of RFC 4648 and the URL-safe characters |
| Cursor.TagsCursorRoundTrip | objectified-mcp/src/objectified_mcp/spec_list_tags_tool.py:26-62 | decoding an encoded cursor returns the key for every count and every tag string |
| Cursor.PayloadExact | objectified-mcp/src/objectified_mcp/spec_list_tags_tool.py:45-62 | a payload is taken exactly when it is of version 1 with a count that is not negative and a text tag |
| Cursor.PayloadSample | objectified-mcp/src/objectified_mcp/spec_list_tags_tool.py:26-30 | the JSON text in the cursor: count, tag, version |
| Cursor.EscapeSample | objectified-mcp/src/objectified_mcp/spec_list_tags_tool.py:26-30 | quotes and characters beyond ASCII are escaped in it |
| Cursor.PairSample | objectified-mcp/src/objectified_mcp/spec_list_tags_tool.py:26-30 | those beyond four digits as a surrogate pair |
| Cursor.MissingCursor | objectified-mcp/src/objectified_mcp/spec_list_tags_tool.py:33-38 | no cursor is no place; a blank one is an error |
| RowCursors.FieldsRoundTrip | objectified-mcp/src/objectified_mcp/spec_list_tool.py:40-66 | any payload of text fields survives JSON, base64url, stripping and padding |
| RowCursors.TimeRoundTrip | objectified-mcp/src/objectified_mcp/spec_list_tool.py:36-87 | writing the zero offset as `Z` and reading it back loses no time stamp, however often the offset occurs in the text |
| RowCursors.SpecCursorRoundTrip | objectified-mcp/src/objectified_mcp/spec_list_tool.py:37-91 | every spec position survives its cursor |
| RowCursors.SpecCursorExact | objectified-mcp/src/objectified_mcp/spec_list_tool.py:63-91 | a payload is taken exactly when it is of version 1 with a readable time, in a zone, and a readable identifier |
| RowCursors.SpecCursorText | objectified-mcp/src/objectified_mcp/spec_list_tool.py:38-47 | the JSON text in the cursor: identifier, time, version |
| RowCursors.OffsetIsZ | objectified-mcp/src/objectified_mcp/spec_list_tool.py:43 | a time that ends in the zero offset ends in `Z` there |
| RowCursors.ProjectCursorRoundTrip | objectified-mcp/src/objectified_mcp/project_list_tool.py:40-93 | every project position survives its cursor |
| RowCursors.ProjectCursorExact | objectified-mcp/src/objectified_mcp/project_list_tool.py:60-93 | the like with two identifiers |
| Keyset.FetchIsPageAt | objectified-mcp/src/objectified_mcp/spec_list_tool.py:260-284 | fetching one row more than the limit past a cursor gives the next rows of the sorted list, with a cursor exactly when rows remain |
| Keyset.PageSizes | objectified-mcp/src/objectified_mcp/spec_list_tool.py:94-99 | a limit below 1 and an unreadable cursor are refused; else a page holds the next n rows or what is left, n being the limit up to 100, or 50 without one, and hands out a cursor exactly when more remain |
| Keyset.TraversalIsComplete | objectified-mcp/src/objectified_mcp/spec_list_tool.py:131-142 | following the cursors yields every row exactly once in order, whatever limits the client picks |
| Keyset.TraversalLength | objectified-mcp/src/objectified_mcp/spec_list_tool.py:94-99 | with one limit, n being the limit up to 100, or 50 without one, the traversal takes max(1, ceil(rows / n)) pages |
| Keyset.TraversalExists | objectified-mcp/src/objectified_mcp/spec_list_tool.py:260-284 | the traversal can always be carried through: no cursor the tool hands out is refused |
| SpecList.CursorSqlKeeps | objectified-mcp/src/objectified_mcp/spec_list_tool.py:180 | the cursor condition with its three parameters keeps exactly the rows after the cursor in (updated_at, id) order |
| SpecList.SpecListServes | objectified-mcp/src/objectified_mcp/spec_list_tool.py:186-284 | every answer, for every caller, scope, filter, limit and cursor, is the page of exactly the rows that caller may list |
| SpecList.SpecTraversal | objectified-mcp/src/objectified_mcp/spec_list_tool.py:131-183 | following the cursor yields each row the caller may list once, the later update first and of two at one time the higher identifier; the number of pages is as above |
| ProjectList.PastSqlKeeps | objectified-mcp/src/objectified_mcp/project_list_tool.py:195-206 | the nested disjunction, with its six parameters, is the lexicographic order on three keys |
| ProjectList.ProjectsExact | objectified-mcp/src/objectified_mcp/project_list_tool.py:123-129 | grouping gives one entry per project, at the time of its latest spec, and no other |
| ProjectList.ProjectListServes | objectified-mcp/src/objectified_mcp/project_list_tool.py:213-308 | every answer is the page of exactly the projects that caller may list |
| ProjectList.ProjectTraversal | objectified-mcp/src/objectified_mcp/project_list_tool.py:133-148 | following the cursor yields each such project once, the later activity first, then the higher tenant, then the higher project |
| TagList.CountsExact | objectified-mcp/src/objectified_mcp/spec_list_tags_tool.py:78-82 | one entry per tag in use, with the number of its uses |
| TagList.TagListServes | objectified-mcp/src/objectified_mcp/spec_list_tags_tool.py:98-140 | every answer is the page of exactly the tags of the public specs |
| TagList.TagTraversal | objectified-mcp/src/objectified_mcp/spec_list_tags_tool.py:77-94 | following the cursor yields each tag once, the more used first and of two used as often the lower text, for every tag string |
| PointInTime.FoldEventsAsOf | objectified-db/src/backup/pitr.ts:69-138 | live records strictly ordered by id, each in the state its own events give; live plus deleted is the number of ids created in the window; counts and last time |
| PointInTime.FoldIsUnique | objectified-db/src/backup/pitr.ts:120-137 | that specification determines the result |
| PointInTime.RecordKeepsSequence | objectified-db/src/backup/pitr.ts:73-79 | sorting the whole log keeps each record's events together, in sequence order, ties in input order |
| PointInTime.KnownExact | objectified-db/src/backup/pitr.ts:85-117 | a record has a state exactly when it was created within the window |
| PointInTime.RecordsExact | objectified-db/src/backup/pitr.ts:82-137 | read off the history: a record is listed exactly when it has a creation and does not end in a deletion, with the last event's number and time, and the data of the last creation or data-carrying restoration overlaid by the updates after it |
| PointInTime.HeldExact | objectified-db/src/backup/pitr.ts:82-137 | some record of a name is listed exactly under that condition |
| PointInTime.FoldForgetsOrder | objectified-db/src/backup/pitr.ts:65-79 | with unique (record, sequence) pairs the input order leaves no trace |
| PointInTime.NullCutoff | objectified-db/src/backup/pitr.ts:70 | no cutoff equals any cutoff at or after the last event |
| PointInTime.ReplayComposes | objectified-db/src/backup/pitr.ts:69-118 | going on from a record's state at t1 with its later events gives its state at t2 when no later event stands before an earlier one in that record's history |
| PointInTime.StampsComposeExact | objectified-db/src/backup/pitr.ts:69-118 | for a record known at t1, going on from there gives the liveness, sequence number and time it has at t2 exactly when it has no later event or its last one in sequence is a later one |
| PointInTime.TimesFollowCutsCleanly | objectified-db/src/backup/pitr.ts:73-79 | which is so at every t1 when times do not run against the sequence |
| PointInTime.BackwardTimesDoNotCompose | objectified-db/src/backup/pitr.ts:73-79 | with a late time on an early event it does not |
| PointInTime.LastEventIsNewest | objectified-db/src/backup/pitr.ts:45-46 | when times do not run against the sequence, it is the newest event on a known record |
| PointInTime.LastEventExact | objectified-db/src/backup/pitr.ts:120-128 | a time that no event on a known record exceeds is the one reported exactly when it is that of some known record's last event in sequence order |
| PointInTime.LastEventIsNotNewest | objectified-db/src/backup/pitr.ts:120-128 | a record created at 5 and updated with the next sequence number at 3: 3 is reported |
| PointInTime.Sandbox.RestoreToSandbox | objectified-db/src/backup/engine.ts:395-436 | no insert ever collides: the schema ends up with exactly the live records, and other schemas are untouched |
| PointInTime.LiveExact | objectified-db/src/backup/engine.ts:395-436 | the restored records are exactly those of that kind |
| DumpChain.PlanReconstruction | objectified-db/src/backup/dump.ts:82-105 | the latest full dump at or before the target and every patch after it, or which of the two errors |
| DumpChain.ReconstructContent | objectified-db/src/backup/dump.ts:118-131 | replaying the plan gives the text the entry stands for |
| DumpChain.Directory.CreateDumpBackup | objectified-db/src/backup/dump.ts:151-191 | what a run leaves in the directory and reports, whichever step fails |
| DumpChain.RunKeepsGood | objectified-db/src/backup/dump.ts:159-191 | one run on the day of the last file or later keeps every file reconstructing its recorded dump |
| DumpChain.RunKeepsGoodExact | objectified-db/src/backup/dump.ts:151-191 | on any day and with any failures, when patches keep different texts apart: a run keeps every file reconstructing exactly when the patch it writes is made against what stands right before its day, and a patch on the next entry finds the text it was made against |
| DumpChain.ClearFits | objectified-db/src/backup/dump.ts:159-191 | that is so when the next entry after the day is a full dump or absent, and the run writes nothing, is forced, finds no other entry, or none after its day |
| DumpChain.FitsIsClear | objectified-db/src/backup/dump.ts:159-191 | and only then, where the texts in question differ |
| DumpChain.ChainIsGood | objectified-db/src/backup/dump.ts:146-191 | after any runs on non-decreasing days, with reruns, forced and failing ones, each file reconstructs the dump of its day's last run, and exactly the days whose last run worked have a file |
| DumpChain.ChainIsGoodExact | objectified-db/src/backup/dump.ts:146-191 | after each of a series of runs on days in any order the directory is good exactly when each run fits what it finds |
| DumpChain.RecordedIsLast | objectified-db/src/backup/dump.ts:148-164 | what is recorded for a day is the dump of the day's last run, if that run worked |
| DumpChain.GoodRunsWork | objectified-db/src/backup/dump.ts:172-184 | on the day of the last file or later, a run over a good directory fails only when its dump or its diff does |
| DumpChain.RunWorksExact | objectified-db/src/backup/dump.ts:163-184 | over any directory, a run writes its file exactly when the dump works and it is forced, or no other entry exists, or one of the others is full and the diff works |
| DumpChain.PriorIsEarlierExact | objectified-db/src/backup/dump.ts:163-168 | the entry taken as prior is of an earlier day exactly when no file is of a later one |
| DumpChain.RunBetweenFulls | objectified-db/src/backup/dump.ts:166-184 | an unforced run between two full dumps makes its patch against the later one, and breaks unless the two hold one text |
| DumpChain.BackwardDayBreaksChain | objectified-db/src/backup/dump.ts:159-177 | a forced rerun for the first of two days breaks the patch of the second unless the text is the same |
| Retention.SelectExpired | objectified-db/src/backup/retention.ts:50-80 | the loop selects the over-age part of the unprotected tail |
| Retention.ExpiredExact | objectified-db/src/backup/retention.ts:50-80 | a backup expires exactly when it is over age and at least `keepLast` others are newer |
| Retention.Directory.Prune | objectified-db/src/backup/engine.ts:449-462 | pruning leaves exactly the others and reports their number |
| Retention.PruneTwice | objectified-db/src/backup/engine.ts:449-462 | pruning at t1 and again at t2 >= t1 leaves what pruning once at t2 leaves |
| Retention.NewestSurvive | objectified-db/src/backup/retention.ts:8-12 | over every interleaving of creating and pruning, the newest `keepLast` backups ever created survive |
| SchemaDiff.WellFormedIsTidy | objectified-ui/lib/schema-diff.ts:279-283 | the schemas of a well-formed document list each key once, and so do the properties of each class |
| SchemaDiff.CompareObjects | objectified-ui/lib/schema-diff.ts:416-530 | the changed tracked keys, in table order |
| SchemaDiff.NoChanges | objectified-ui/lib/schema-diff.ts:416-530 | no key is reported exactly when all tracked fields are equal as values and none of those compared by identity holds an array or object |
| SchemaDiff.SelfDiffExact | objectified-ui/lib/schema-diff.ts:275-530 | a document compared with an equal one shows as modified exactly the items that hold an array or object in an identity-compared field |
| SchemaDiff.ListTypeIsModified | objectified-ui/lib/schema-diff.ts:416-470 | such is every class whose `type` is a list |
| SchemaDiff.ListTypeExists | objectified-ui/lib/schema-diff.ts:416-470 | a document with such a class, of type `["object", "null"]` |
| ChangeKinds.ClassChangesExact | objectified-ui/lib/schema-diff.ts:416-446 | the reported keys of a class, one by one: description and type by reference, required as a list, the combinations by text |
| ChangeKinds.PropertyChangesExact | objectified-ui/lib/schema-diff.ts:451-530 | the reported keys of a property, one by one |
| ChangeKinds.SchemasExact | objectified-ui/lib/schema-diff.ts:279-283 | the compared classes are those under `components.schemas` |
| ChangeKinds.KeysInOrder | objectified-ui/lib/schema-diff.ts:285 | the names come in the order of the first document, those only the second has after them in its order |
| ChangeKinds.ItemDiffExact | objectified-ui/lib/schema-diff.ts:285-400 | each entry has the dotted path, the type and the two values of its item, and the keys above |
| ChangeKinds.ComparableExact | objectified-ui/lib/schema-diff.ts:416-530 | the comparison throws exactly when a class or property that both sides hold is null on one |
| SchemaDiff.CompareSchemas | objectified-ui/lib/schema-diff.ts:275-411 | the nested loops produce the four buckets, or throw exactly when a null is compared |
| SchemaDiff.ItemsExact | objectified-ui/lib/schema-diff.ts:285-400 | the items compared are exactly the classes and properties of either side, once each |
| SchemaDiff.Partition | objectified-ui/lib/schema-diff.ts:285-410 | each class and property is in exactly one bucket, the one that says what became of it; nothing else is in any |
| SchemaDiff.Duality | objectified-ui/lib/schema-diff.ts:275-411 | swapping the inputs swaps added with removed and keeps modified paths and change lists |
| ClassDiff.PrefixExact | objectified-ui/lib/schema-diff.ts:52-55 | the pattern reads a plain class name back exactly from the paths that start with its property prefix |
| ClassDiff.PathsTellApart | objectified-ui/lib/schema-diff.ts:52-55 | different items have different paths |
| ClassDiff.GetClassChangeDiffs | objectified-ui/lib/schema-diff.ts:125-146 | the class's changed entries, sorted |
| ClassDiff.ChangesAreOrdered | objectified-ui/lib/schema-diff.ts:139-145 | the class's own entry first, then its properties by path |
| ClassDiff.BuildClassLevelDiff | objectified-ui/lib/schema-diff.ts:41-122 | one row per class of either side, in name order, computed from bucket counts |
| ClassDiff.RowCountsAgree | objectified-ui/lib/schema-diff.ts:79-121 | each row's counts are those of the class's change list |
| ClassDiff.RowStatusAgrees | objectified-ui/lib/schema-diff.ts:79-146 | each row's status and class changes are what the class's change list says |
| BreakingChanges.EnumChangeExact | objectified-ui/lib/breaking-changes-doc.ts:38-56 | narrowing loses values and gains none; widening gains and loses none |
| BreakingChanges.NarrowIsWidenBackwards | objectified-ui/lib/breaking-changes-doc.ts:38-56 | what narrows one way widens the other way, unless everything was lost |
| BreakingChanges.ClassifyModifiedProperty | objectified-ui/lib/breaking-changes-doc.ts:75-134 | with its order of tests and early returns, breaking means that some change is hard by itself |
| BreakingChanges.BuildBreakingChangesBullets | objectified-ui/lib/breaking-changes-doc.ts:168-230 | the loops and the sort build the document of the told entries |
| BreakingChanges.RedundantExact | objectified-ui/lib/breaking-changes-doc.ts:136-155 | a property is left out exactly when its whole class was added or removed |
| BreakingChanges.EveryChangeTold | objectified-ui/lib/breaking-changes-doc.ts:168-219 | every change has exactly one bullet, or is a property of a wholly added or removed class that has one |
| ChangeKinds.CategoryExact | objectified-ui/lib/breaking-changes-doc.ts:17-134 | gone is breaking, new is an addition; a class breaks when its type, required list or a combination changes; a property when a contract key changes, `nullable` goes from true to false, or its enum changes other than by growing |
| ChangeKinds.DocumentSays | objectified-ui/lib/breaking-changes-doc.ts:165-229 | each such bullet has the path after `components.`, the wording and that category |
| ChangeKinds.DocumentIsOrdered | objectified-ui/lib/breaking-changes-doc.ts:221-227 | bullets go by path, then by text |
| BreakingChanges.DocumentForgetsOrder | objectified-ui/lib/breaking-changes-doc.ts:165-229 | the document does not depend on the order of the buckets |
| BreakingChanges.ConflictsExact | objectified-ui/lib/version-merge.ts:93-96 | the conflict paths are those of the target's items that are gone, differ by value in a tracked field, or hold an array or object in an identity-compared one |
| ChangeKinds.AddedNamesExact | objectified-ui/lib/version-merge.ts:97-99 | the added names are those of the classes only the source has |
| BreakingChanges.CanAutoMergeExact | objectified-ui/lib/version-merge.ts:88-105 | a merge goes through exactly when every class and property of the target survives with equal tracked fields and none holds an array or object in an identity-compared field |
| BreakingChanges.SelfMergeExact | objectified-ui/lib/version-merge.ts:88-105 | a document merges with an equal one exactly when it holds no such array or object |
| BreakingChanges.ListTypeNeverMerges | objectified-ui/lib/version-merge.ts:88-105 | a target with a class whose `type` is a list merges with no document, not even its own copy |
| BreakingChanges.AutoMergeBreaksNothing | objectified-ui/lib/version-merge.ts:88-105 | and then no bullet is breaking |
| MergeConflicts.SignatureExact | objectified-ui/lib/version-merge.ts:40-43 | without bars in them, two lists of kinds have one signature exactly when they are the same set |
| MergeConflicts.BarsCollide | objectified-ui/lib/version-merge.ts:40-43 | a kind with a bar inside shares its signature with the two kinds around the bar |
| MergeConflicts.SignatureIsSharedExact | objectified-ui/lib/version-merge.ts:40-43 | some list of other kinds has the signature of given ones exactly when these are two or more, or one that is itself two or more trimmed, increasing kinds with bars between them |
| MergeConflicts.TwoKindsShare | objectified-ui/lib/version-merge.ts:40-43 | two or more kinds share their signature with the one kind that is that text |
| MergeConflicts.SharedWithPipeFreeExact | objectified-ui/lib/version-merge.ts:40-43 | the others can be bar-free exactly when one of the given kinds holds a bar and the signature's pieces are not empty, trimmed and strictly increasing |
| MergeConflicts.NormalizeMergeConflictRows | objectified-ui/lib/version-merge.ts:61-85 | the usable records, or the fallback when there is none |
| MergeConflicts.RowsAreUsable | objectified-ui/lib/version-merge.ts:66-81 | every usable record has a path and kinds, none blank, and a signature |
| MergeConflicts.RowExact | objectified-ui/lib/version-merge.ts:66-81 | a record gives a row exactly when its path is text that is not blank; the row has the path and the kinds trimmed, or `twoWay` when none is left |
| MergeConflicts.FallbackExact | objectified-ui/lib/version-merge.ts:84 | the fallback rows have the given paths and the kind `twoWay` |
| StableJson.ReadStringify | objectified-ui/lib/stable-json.ts:2-14 | a reader of JSON text (strings as in section 7 of RFC 8259) inverts the printer on every value |
| StableJson.StringifyIsCanonical | objectified-ui/lib/stable-json.ts:2-14 | two values give the same text exactly when they are the same up to object key order, stated on the values themselves |
| StableJson.LiteralTexts | objectified-ui/lib/stable-json.ts:2-14 | the text of literals and numbers |
| StableJson.ArrayText | objectified-ui/lib/stable-json.ts:8-10 | items in order, with commas between them |
| StableJson.EscapedTexts | objectified-ui/lib/stable-json.ts:2-14 | the escapes of section 7 of RFC 8259 |
| StableJson.ObjectText | objectified-ui/lib/stable-json.ts:11-13 | members in ascending key order without white space |
| StableJson.LessIsUtf16 | objectified-ui/lib/stable-json.ts:12 | keys are compared by UTF-16 code units |
| StudioFingerprint.CacheKeyExact | objectified-ui/lib/studio-schema-fingerprint.ts:9-29 | two contexts share a cache key exactly when they agree on version and project and each class and property of one has its like in the other: equal id, name and fields, an absent field counting as null |
| FingerprintCache.Cache.Lookup | objectified-ui/lib/studio-schema-fingerprint.ts:49-51 | a hit is the entry of the key |
| FingerprintCache.Cache.Settle | objectified-ui/lib/studio-schema-fingerprint.ts:53-58 | the eviction and insertion after the hash arrives |
| FingerprintCache.EveryInterleavingIsGood | objectified-ui/lib/studio-schema-fingerprint.ts:43-59 | however calls overlap, at most 16 entries, each key with its own hash, and every call answered with its own key's hash |
| FingerprintCache.CallsAreConserved | objectified-ui/lib/studio-schema-fingerprint.ts:48-59 | no call is lost or answered twice |
| FingerprintCache.OverlapEvictsTwice | objectified-ui/lib/studio-schema-fingerprint.ts:52-57 | two overlapping calls for one new key on a full cache evict two entries for the one they add |
| FingerprintCache.SequentialIsFifo | objectified-ui/lib/studio-schema-fingerprint.ts:48-59 | without overlap the cache is the last sixteen keys hashed, oldest first |
| SseStream.Accumulate | objectified-ui/lib/ollama-chat-sse.ts:14-44 | for every way of cutting the text into chunks, the contents of its complete `data: ` lines in order, with one callback per piece; an abort stops it |
| SseStream.LinesContinue | objectified-ui/lib/ollama-chat-sse.ts:24-26 | the kept remainder and the next chunk yield the lines the whole text would |
| SseStream.AbortedIsPrefix | objectified-ui/lib/ollama-chat-sse.ts:18-21 | an aborted stream returns a prefix of what the whole stream returns |
| SseStream.WholeLines | objectified-ui/lib/ollama-chat-sse.ts:24-28 | only newline-terminated lines count; an unfinished tail yields nothing |
| SseStream.DataLineExact | objectified-ui/lib/ollama-chat-sse.ts:29-41 | a `data: ` line gives the content of what follows, unless that is `[DONE]` or empty |
| SseStream.OtherLineExact | objectified-ui/lib/ollama-chat-sse.ts:29 | other lines give nothing |
| SseStream.AbortExact | objectified-ui/lib/ollama-chat-sse.ts:18-21 | reading stops at the first read before which the signal is aborted |
| LiveChecklist.InferOrder | objectified-ui/lib/import-execution-live-rows.ts:42-72 | rows in order of first appearance; the passes over the collected names add nothing |
| LiveChecklist.AppearanceExact | objectified-ui/lib/import-execution-live-rows.ts:42-72 | each class that the log names as created or failed has one place in the order, and no other name has |
| LiveChecklist.BuildImportLiveChecklist | objectified-ui/lib/import-execution-live-rows.ts:96-162 | one row per selected or inferred schema, each with the status the log gives it |
| LiveChecklist.StatusExact | objectified-ui/lib/import-execution-live-rows.ts:130-159 | a row is an error when its class failed; else when it was created a warning with the first text that warns of it, or a success; else importing when the job is at it, or pending |
| LiveChecklist.ChecklistExact | objectified-ui/lib/import-execution-live-rows.ts:113-131 | one row per selected class, or else per class the log names, numbered in order |
| LiveChecklist.OrderGrows | objectified-ui/lib/import-execution-live-rows.ts:47-71 | as the log grows, rows are only added at the end |
| LiveChecklist.StatusMovesForward | objectified-ui/lib/import-execution-live-rows.ts:130-159 | as the log grows, a settled row only moves forward; a row falls back exactly when it was only importing and the report has moved on |
| LiveChecklist.RowsStay | objectified-ui/lib/import-execution-live-rows.ts:130-131 | rows keep their place and label as the log grows |
| PropertyRows.CollectSchemaPropertyRows | objectified-ui/lib/repository-file-spec-metadata.ts:705-745 | the labelled loop returns the prefix of the full table that fits the shared budget, and says truncated exactly when more exist |
| PropertyRows.PropertyTableRows | objectified-ui/lib/repository-file-spec-metadata.ts:905-920 | collecting under the cap and capping again shows the first rows and is truncated exactly when there are more |
| PropertyRows.TableIsSorted | objectified-ui/lib/repository-file-spec-metadata.ts:711-725 | the full table is strictly sorted by schema and property |
| PropertyRows.TableExact | objectified-ui/lib/repository-file-spec-metadata.ts:705-745 | it has one row for each property of each schema, marked required exactly when the schema lists it |

## Left out

- PostgreSQL, the file system, `pg_dump`, `diff`, `patch`, encryption and manifests: their effects enter as state or functions.
- SQL text and identifier quoting: conditions are expression trees, and their placeholders take parameters by position.
- The joins of versions with projects and tags: a catalog row is the joined row, with its nullable columns.
- Row shaping, titles, audit scheduling, key lookup and the HTTP layers of the list tools.
- Cursors made by others: a decoder that skips foreign characters, white space inside the JSON and multi-byte UTF-8 are not modelled; such cursors count as malformed.
- Lone surrogates: characters are Unicode scalar values. Floating-point numbers in JSON.
- Non-ASCII digits in Python's `int`, and the case of letters beyond ASCII.
- The script name pattern, `execution_time`, `installed_by` and time stamps of history rows: files come parsed.
- Migration.Database.ApplyOneFile: a connection lost during the commit, after which the database may have kept it, is not modelled, nor is a script that commits by itself.
- Checksum.ComputeCrc: gives the checksum as an unsigned 32-bit word; the code returns the same bits as a signed integer.
- Invalid dates in the event log and unreadable stamps other than in retention.
- Duration labels, drill summaries and the recovery-point maximum of an export: easy members only.
- The backup file name pattern: directory entries come as date, kind and content; a directory never holds a full dump and a patch of one day.
- SchemaDiff.CompareSchemas: an object whose `schemas` or `properties` member is an array or a string counts as empty.
- ClassDiff.RowStatusAgrees: takes class names that are not empty and hold no dot, as the path patterns do.
- The same parsed object given as both sides of a schema diff: the two sides are parsed separately.
- Markdown assembly of the document, path labels and single-line wording.
- Filtering the rows of a merge preview by text and signature.
- How class names are cut out of import messages, progress wording and time estimates.
- The wording of property rows, path and class tables, and the GraphQL tables.
- Decoding of byte chunks to text, and the network reader, of the event stream.
