# Migration runs and the OAuth proxy of hugr, modelled and verified in Dafny

The project models four parts of the repository and proves what they guarantee.

**Migration runs** (`cmd/migrate/main.go`). A run reads the stored version, selects and sorts the files above
it, executes them one by one and lets the stored version lag behind. `Versions` and `Files` model the version
order, the discovery and the sort; `Runner` models the run both as a list of database statements that a process
death can cut anywhere and as the imperative loop over a database object, proved equal to it; `Recovery` proves
what any number of dying and restarted runs guarantee.

- *No gap.* In every reachable state the executed scripts are a prefix of the sorted catalogue and contain
  every script at or below the stored version. This needs that a script which sets the version sets that of its
  own file, and that the version written around a file is below the next file's version (`SafeFrom`). For
  scripts that do not fail the second condition is also necessary: `NoGapExactly` is an if-and-only-if.
- *Convergence.* If re-running a block of scripts does what running it once does, every crashing run that
  finally completes leaves the tables and the version of one uninterrupted run.
- *Staging.* Migrating to v1 and then to v2 is migrating to v2, also when both stages die and are started again.

**The shipped scripts 0.0.9 to 0.0.18** (`migrations/`). `Sql` gives tables, statements and three-valued
conditions a meaning. `Replay` gives rules, read off two statements, under which the later one keeps what the
earlier one established; `Scripts` holds the ten scripts and applies the rules to all pairs around the reset in
0.0.13; `Shipped` concludes that migrating with these scripts, in a folder that may hold older files too,
converges from every database. `Checker` checks statement lists against table shapes, and `Completion` uses it
to say exactly when the scripts succeed. `Effects` says what each of the ten scripts leaves, cell by cell, and that
the reset makes the tables that the earlier scripts lead to. `TypeRefs` and `Backfill` are about the text expression
and the rows of 0.0.11.

In `Runner` and `Recovery` a script is executed as a whole or not at all, which is what Postgres does with the
text of a script. `Statements` drops that for the shipped scripts: there a process may die, and a statement may
fail, between any two statements of a script, as on DuckDB, and the version write inside a script is a statement
of its own. `Grains` shows that these are the statements of the runner's plan for any folder that ends with the
shipped files. `Deaths` says what a death can do for good:

- Inside 0.0.13, in a run that began before it: the stored version lags, so the next run begins at 0.0.12, and
  if the table of fields or of settings is dropped and not yet created again, no later run can complete. That is
  so exactly after 8 to 23 of the 38 statements (`ResetDeath`), and every run from before 0.0.13 to beyond it can
  die there (`SomeTrap`).
- Inside 0.0.15, which writes its version first: the next run skips what is left of it. The tables come out
  right exactly when what is left would change no row (`FixDeath`, `FixSettled`). `SomeHarm` gives a well-formed
  database at 0.0.14 where it would.
- These are the only two places. For every schedule later runs can complete exactly when no run was stopped in
  the first one, and completed runs have the tables of one uninterrupted run exactly when no run was stopped in
  the second one (`StepsExactly`).
- So a database converges under every schedule exactly when the run does not go from before 0.0.13 to beyond it
  and, where it goes through 0.0.15 without 0.0.13, every row of the fields already has what 0.0.15 assigns
  (`ConvergesExactly`). Both can be read off the database before the call.

**The OAuth proxy** (`pkg/auth/oauth`). `OAuth` models the world as the history of issued ciphertexts with a
clock in nanoseconds. States and codes are sealed under one key without a tag and decoded by field name, so one
invariant speaks of all ciphertexts, each traced back through any chain of callbacks to an accepted authorize
request. A presented string stands for the ciphertext it decodes to: base64url decoding skips line breaks and
spare bits, so one ciphertext has many spellings. `Query` is the form encoding of the redirect; `Utf8`,
`Base64Url`, `JsonText` and `Sealing` are the sealing down to its text. `Sealing.RunsAsModelled` shows that in every
run it does what the symbolic model does, on every presented string that is not a forgery: one whose bytes the AEAD
opens although the proxy never sealed them. `HypothesesMet` shows that the hypotheses of this hold together.

**Role extraction from claims** (`pkg/auth/oidc_provider.go`), in `Claims`.

A Go string is a sequence of bytes, one `char` below 256 for each. What is sealed passes through JSON, which puts
U+FFFD for every byte that is not part of valid UTF-8; `Utf8.Clean` is that passage, and it changes nothing exactly
for valid UTF-8.

Where the code and its documentation or expectation part:

- `compareVersions` is called numeric. It equals the lexicographic order of the integer components, trailing
  zeros dropped, except where one name continues the other with components that start below zero: it puts "1"
  above "1.-1" (`LexDisagrees`). `CompareAgainstLex` gives the exact condition.
- The shipped scripts are not safe against a death at every statement on DuckDB. `SomeTrap` and `SomeHarm` give
  the failing runs, `ConvergesExactly` the exact condition.
- The outer replacement in 0.0.11 looks as if it trimmed both ends, but has no global flag: it removes the
  leading white space, or the trailing one if there is none in front. `StripPrinted` says exactly when the
  result is still the innermost name; for GraphQL names it always is.
- `claimString` documents the first match. That match wins even if nothing follows its prefix, and then the
  claim counts as missing although a later string would give a role.
- A ciphertext made as a state decodes as a code with empty tokens. The trace of a token response therefore
  speaks of the tokens only when the access token is not empty.
- `expires_in` is computed in doubles. For a lifetime of 9 000 000 s or more it may be up to 1024 ns too long;
  below that it is the remaining time rounded down.

`dafny verify dfyconfig.toml` checks the whole project.

## Model

| member | source | states |
|---|---|---|
| Versions.CompareVersions | cmd/migrate/main.go:297-316 | the index loop computes the order `Compare` that the other rows characterise |
| Versions.CompareMeaning | cmd/migrate/main.go:301-314 | the sign is that of the first place where the integers read from the components differ, past the end counted as 0, and 0 when there is none |
| Versions.AtoiExactly | cmd/migrate/main.go:303-308 | a component is read as its sign and decimal value within the 64-bit integers, as 0 when a character is no digit, and as the nearest 64-bit integer when its value leaves the range before that |
| Versions.AtoiSigns | cmd/migrate/main.go:303-308 | a component without digits after at most one sign is read as 0 |
| Versions.CompareTotalPreorder | cmd/migrate/main.go:297-316 | reflexive, opposite signs when swapped, transitive, strict when either step is strict, on all strings, with unparsable components counted as Atoi does |
| Versions.CompareAgainstLex | cmd/migrate/main.go:295-316 | 0 exactly when the keys without trailing zeros are equal; equal to their lexicographic order exactly when neither key continues the other below zero |
| Versions.LexDisagrees | cmd/migrate/main.go:295-316 | an input where the order is not the lexicographic one |
| Versions.CanonicalTies | cmd/migrate/main.go:128-155 | on canonical names with equally many components the order ties exactly on equal strings, so the string comparison at the group boundary agrees with the sort |
| Files.IsWanted | cmd/migrate/main.go:113 | the filter accepts exactly the versions above the stored one and not above the target |
| Files.SelectFiles | cmd/migrate/main.go:101-121 | the walk's callback appends exactly the wanted files, in walk order, with their versions |
| Files.VersionOfLayout | cmd/migrate/main.go:108-112 | a file in a folder named by a version, and a file so named, get that version |
| Files.VersionOfExactly | cmd/migrate/main.go:108-112 | the version of any path below the root is its first component without the trailing characters out of ".sql" |
| Files.AppliedExactly | cmd/migrate/main.go:101-132 | a run applies exactly the files above the stored version and not above the target, in ascending order of the versions, and files of equal versions in ascending byte order of their paths |
| Files.SortedUnique | cmd/migrate/main.go:127-132 | with distinct paths two ordered permutations are equal: the result does not depend on the sorting algorithm |
| Files.WalkOrderIndependent | cmd/migrate/main.go:101-132 | any order of discovery gives the same applied sequence |
| Files.EqualVersionsContiguous | cmd/migrate/main.go:127-132 | in the applied sequence files of equal versions stand next to each other |
| Files.SelectedIsAbove | cmd/migrate/main.go:101-132 | what a run selects and sorts is the part of one fixed sorted catalogue above the stored version |
| Files.CatalogueNested | cmd/migrate/main.go:113 | a nearer target gives the leading part of the catalogue |
| Runner.Database.Exec | cmd/migrate/main.go:150-154 | a script changes tables, version row and history as its effect says, or nothing when it fails |
| Runner.Database.UpdateVersion | cmd/migrate/main.go:156-164 | a version write changes the version row only |
| Runner.ApplyFiles | cmd/migrate/main.go:134-168 | the apply loop, killed after any number of statements, leaves the state and outcome of that many statements of the plan |
| Runner.Migrate | cmd/migrate/main.go:68-168 | the same for the whole run, from the read of the version row on: it equals the run over the catalogue |
| Recovery.Process | cmd/migrate/main.go:134-168 | from any turn of the loop a process executes the next files in order up to some file, stores only versions that cover executed files, and completes when it has enough statements and no script fails |
| Recovery.NoGapInAnyRuns | cmd/migrate/main.go:113-168 | over any schedule of deaths and restarts the executed scripts are a prefix containing all at or below the stored version, and the start point never moves back |
| Recovery.NoGapExactly | cmd/migrate/main.go:113-168 | when no script fails, no schedule skips a script if and only if the folder is safe from the first pending file on |
| Recovery.PlainFolderSafe | cmd/migrate/main.go:154-162 | a folder with one name for each version is safe when a script sets the version only as the last file of its group |
| Recovery.BoundedReplay | cmd/migrate/main.go:155-164 | after any deaths the next run re-executes files of one version name only and beyond them at most the one file executed last: at most the last two groups reached |
| Recovery.Converges | cmd/migrate/main.go:70-168 | with replay-safe scripts, any crashing run that finally completes leaves the tables and version of one uninterrupted run, and can complete exactly when that one does |
| Recovery.StagesCompose | cmd/migrate/main.go:113-168 | a run to v1 and one to v2 complete exactly when one run to v2 does, with the same tables, version and sequence of scripts |
| Recovery.StagesConverge | cmd/migrate/main.go:70-168 | crashing runs to v1 that finally complete and then crashing runs to v2 that finally complete leave the tables and version of one uninterrupted run to v2 |
| Recovery.RerunIdle | cmd/migrate/main.go:113-168 | a run after a completed one, killed or not, changes nothing |
| Sql.CoreDb.ExecScript | cmd/migrate/main.go:150-154 | executing a script statement by statement gives its effect; when a statement fails, the old database if the script is one transaction and otherwise the database after the statements before it |
| Sql.TablewiseAt | migrations/0.0.13/1-reset-schema-metadata.sql:5-166 | a script leaves each table as it would acting on that table alone |
| Sql.RepeatsTablewise | migrations/0.0.13/1-reset-schema-metadata.sql:5-166 | a script that repeats itself on every single table repeats itself on the database |
| Sql.ActKeepsWellFormed | migrations/0.0.12/1-add-catalog-metadata-columns.sql:4-25 | every statement keeps rows under their own key with exactly the table's columns |
| Sql.DeleteByColumn | migrations/0.0.14/1-reset-catalogs-and-system-types.sql:8 | on a well-formed table deleting by key deletes exactly the rows with that column value and keeps the others |
| Effects.AddsColumn | migrations/0.0.12/1-add-catalog-metadata-columns.sql:4-10 | adding a column keeps all rows and all their cells, and a column that was missing gets its default in every row |
| Effects.FailsExactly | migrations/0.0.16/1-update_module_core_catalog_dep.sql:1-6 | the exact conditions under which each kind of statement but an update fails |
| Effects.UpdateFails | migrations/0.0.14/1-reset-catalogs-and-system-types.sql:5 | an update of columns other than the key fails exactly when its table or a column it mentions is missing |
| Effects.Leaves9 | migrations/0.0.9/1-add-schema-tables.sql:7-121 | 0.0.9 always succeeds, creates the missing tables empty and leaves the others as they are |
| Effects.Leaves10 | migrations/0.0.10/1-add-schema-indexes.sql:9-37 | 0.0.10 changes no table |
| Effects.Leaves11 | migrations/0.0.11/1-add-type-name-columns.sql:3-16 | every row of fields and arguments as 0.0.11 leaves it, cell by cell, and no other table changed |
| Effects.Leaves12 | migrations/0.0.12/1-add-catalog-metadata-columns.sql:4-25 | every row of catalogs and fields as 0.0.12 leaves it, with the defaults of the new columns, the table of nodes and the setting schema_version if missing, and nothing else changed |
| Effects.Leaves13 | migrations/0.0.13/1-reset-schema-metadata.sql:5-166 | 0.0.13 leaves the twelve tables empty but for the setting schema_version, and all others alone |
| Effects.Leaves14 | migrations/0.0.14/1-reset-catalogs-and-system-types.sql:5-8 | 0.0.14 empties the version of every catalog, deletes the setting system_types_version, and changes nothing else |
| Effects.Leaves15 | migrations/0.0.15/1-fix-update-system-catalog.sql:3-9 | every row of the fields as 0.0.15 leaves it, cell by cell, and no other table changed |
| Effects.Leaves16 | migrations/0.0.16/1-update_module_core_catalog_dep.sql:1-6 | 0.0.16 adds the row of core.catalog unless one with its key is there, and changes nothing else |
| Effects.Leaves17 | migrations/0.0.17/1-add-subscription-root-to-modules.sql:2-5 | 0.0.17 sets the subscription root of the root module, leaves it null for the others, and changes nothing else |
| Effects.Leaves18 | migrations/0.0.18/1-add-can-impersonate.sql:3-4 | 0.0.18 lets the role admin impersonate and, when it adds the column, no other role, and changes nothing else |
| Effects.ResetMatches | migrations/0.0.13/1-reset-schema-metadata.sql:19-141 | 0.0.13 makes the twelve tables with the columns, defaults and keys that 0.0.9 to 0.0.12 lead to |
| Replay.RepeatsAtOnce | migrations/0.0.11/1-add-type-name-columns.sql:3-16 | a guarded statement, or an update that does not read what it assigns, leaves its table as a fixed point of itself |
| Replay.KeepsFixed | migrations/0.0.15/1-fix-update-system-catalog.sql:3-9 | the rule for pairs is right: a later statement that meets it keeps every fixed point of the earlier one |
| Replay.KeptRepeats | migrations/0.0.9/1-add-schema-tables.sql:7-121 | a list of repeatable statements that keep each other's fixed points repeats itself from every table state |
| Scripts.FixPair | migrations/0.0.15/1-fix-update-system-catalog.sql:3-9 | the second update of 0.0.15 makes rows the first one selects and leaves them as the first one would |
| Scripts.AllKept | migrations/0.0.18/1-add-can-impersonate.sql:3-4 | among all statements of the nine scripts around the reset, none spoils what an earlier one left |
| Scripts.Resets | migrations/0.0.13/1-reset-schema-metadata.sql:5-166 | 0.0.13 succeeds on every database, leaves the twelve tables in one fixed state and all others alone |
| Scripts.FixedBefore | migrations/0.0.12/1-add-catalog-metadata-columns.sql:4-25 | every statement before 0.0.13 has nothing to do on the tables that 0.0.13 leaves |
| Scripts.BlockRepeats | migrations/0.0.17/1-add-subscription-root-to-modules.sql:2-5 | any block of consecutive shipped scripts, run twice from any database, leaves what one run leaves |
| Scripts.ResetForgets | migrations/0.0.13/1-reset-schema-metadata.sql:5-166 | a block holding 0.0.13 leaves the twelve tables independent of what they were |
| Shipped.ShippedVersions | cmd/migrate/main.go:108-112 | each shipped file is discovered under the version its folder names |
| Shipped.ShippedCatalogue | cmd/migrate/main.go:101-132 | a folder with the ten files and files of older releases, walked in any order with any target or none, gives the older files up to the target and then the first n shipped ones in version order, 0.0.9 before 0.0.10 |
| Shipped.ShippedReady | migrations/0.0.16/1-update_module_core_catalog_dep.sql:7 | the shipped folder is sorted, honest and safe from every start, with one name for each version |
| Shipped.ShippedReplaySafe | migrations/0.0.10/1-add-schema-indexes.sql:9-37 | re-running any block from its start after any part of it ran ends like running it once |
| Shipped.ShippedConverges | cmd/migrate/main.go:70-168 | in a folder whose last files are the shipped ones, migrating converges from every database whose stored version covers the older files, under any schedule of deaths between scripts |
| Shipped.ShippedCompletes | migrations/0.0.18/1-add-can-impersonate.sql:3-4 | a run that begins at or before 0.0.13 and goes beyond it completes exactly when the scripts before 0.0.13 succeed and, for 0.0.18, the table of roles has a name and no key column can_impersonate (the clause on the key is the model's refusal of updates to key columns; NOT NULL is left out) |
| Shipped.FreshCompletes | migrations/0.0.9/1-add-schema-tables.sql:7-121 | from 0.0.8 without the tables of the schema a run completes exactly when the roles are ready in the sense of the row above, or it stops before 0.0.18 |
| Checker.ChecksRuns | migrations/0.0.17/1-add-subscription-root-to-modules.sql:2-5 | a statement list that passes the static check against the shapes of a database succeeds on it and leaves the checked shapes |
| Completion.ResetRuns | migrations/0.0.13/1-reset-schema-metadata.sql:5-166 | 0.0.13 succeeds on every database and leaves the twelve tables with the columns and keys it declares |
| Completion.SucceedsExactly | migrations/0.0.14/1-reset-catalogs-and-system-types.sql:5-8 | a block holding 0.0.13 succeeds exactly when its part before 0.0.13 does and, if it goes up to 0.0.18, the roles are ready: they have a name and, as the model refuses updates of key columns, no key column can_impersonate |
| Completion.FreshRuns | migrations/0.0.11/1-add-type-name-columns.sql:3-16 | on a database without the twelve tables 0.0.9 to 0.0.12 succeed |
| Statements.Connection.Perform | cmd/migrate/main.go:150-156 | one statement or version write changes tables or version row as its effect says, or nothing when it fails |
| Statements.RunAll | cmd/migrate/main.go:134-168 | sending a list of statements, cut after any number of them or by a failure, leaves the state and the rest that the specification says |
| Statements.Process | cmd/migrate/main.go:134-168 | a run over the statements stops in some script after some of its statements with everything before executed, and the stored version is that of two scripts before, or its own where its version write was done; with enough steps and no failure it completes |
| Statements.PairRepeats | migrations/0.0.13/1-reset-schema-metadata.sql:5-166 | one script and any leading part of the next repeat themselves, except 0.0.12 with 8 to 23 statements of 0.0.13 |
| Statements.StepsConverge | cmd/migrate/main.go:70-168 | with deaths and failures between any two statements, when no run is trapped in 0.0.13 or loses updates of 0.0.15, runs that finally complete leave the tables and version of one uninterrupted run, and can complete exactly when that one does, also where it fails |
| Deaths.ResetDeath | migrations/0.0.13/1-reset-schema-metadata.sql:5-141 | after a death inside 0.0.13 in a run that began before it and could have completed, later runs can complete if and only if it died before 8 or after 23 statements |
| Deaths.SomeTrap | migrations/0.0.13/1-reset-schema-metadata.sql:5-141 | from every database before 0.0.13 that could be migrated beyond it some death makes every later run fail |
| Deaths.FixDeath | migrations/0.0.15/1-fix-update-system-catalog.sql:1-9 | after a death inside 0.0.15 later completed runs have the tables of one uninterrupted run if and only if the updates that were left would change nothing |
| Deaths.FixSettled | migrations/0.0.15/1-fix-update-system-catalog.sql:3-9 | those updates change nothing exactly when every row of the fields that they select has the values they assign |
| Deaths.LossyRows | migrations/0.0.15/1-fix-update-system-catalog.sql:1-9 | a run stopped inside 0.0.15 loses updates exactly when it leaves a row of the fields that is not so |
| Deaths.SomeHarm | migrations/0.0.15/1-fix-update-system-catalog.sql:1-9 | a database with well-formed tables at 0.0.14 and a death on its way to 0.0.18 after which later runs complete, but never with the tables of one uninterrupted run |
| Deaths.StepsExactly | cmd/migrate/main.go:70-168 | for every schedule from a database that could be migrated: later runs can complete if and only if no run was trapped, and completed ones have the version of one uninterrupted run, and its tables if and only if no run lost updates |
| Deaths.ConvergesExactly | cmd/migrate/main.go:70-168 | every schedule converges to the tables and version of one uninterrupted run if and only if the run does not go from before 0.0.13 to beyond it and, where it goes through 0.0.15 without 0.0.13, no row of the fields needs the updates of 0.0.15 |
| Grains.SameWhole | cmd/migrate/main.go:134-168 | an uninterrupted run is the same statement by statement as script by script |
| Grains.FileGrain | cmd/migrate/main.go:150-154 | executing a shipped script is sending its statements, the write of the version inside it included: both fail alike or leave the same tables and version |
| Grains.FolderGrain | cmd/migrate/main.go:113-168 | in a folder that ends with the shipped files, from a stored version that covers the older ones, any number of runs over the statements of the plan are the runs that the rows above speak of |
| TypeRefs.RemovePrinted | migrations/0.0.11/1-add-type-name-columns.sql:10 | removing the wrapper characters of a printed type reference leaves its innermost name, whatever the nesting |
| TypeRefs.StripPrinted | migrations/0.0.11/1-add-type-name-columns.sql:10-15 | whatever the database counts as white space, the whole expression gives the innermost name exactly when that name has none at its ends |
| TypeRefs.RemovesWrappers | migrations/0.0.11/1-add-type-name-columns.sql:10 | of any text exactly the wrapper characters go |
| TypeRefs.StripMeaning | migrations/0.0.11/1-add-type-name-columns.sql:10-15 | any text without its wrappers loses all its leading white space if it has any, and otherwise all its trailing white space |
| Backfill.BackfillsRows | migrations/0.0.11/1-add-type-name-columns.sql:3-16 | 0.0.11 keeps all rows of fields and arguments and their other columns, never overwrites a non-empty name, and fills a missing one with the innermost type name |
| OAuth.DecodesAsBoth | pkg/auth/oauth/crypto.go:16-36 | a sealed payload decodes to itself with clean strings, and as the other kind with the shared fields kept and the others empty |
| OAuth.AcceptedFor | pkg/auth/oauth/crypto.go:102-135 | a ciphertext is accepted exactly until ttl after the start of its second: for more than ttl - 1 s and never beyond ttl |
| OAuth.ReachedInv | pkg/auth/oauth/proxy.go:170-355 | in every run each issued ciphertext comes from an accepted authorize request or carries a grant on from an earlier one that was still alive |
| OAuth.TraceBack | pkg/auth/oauth/proxy.go:256-284 | a ciphertext keeps the client, redirect URI and challenge, clean, of the request its chain starts at, and is at most 300 s for each callback younger |
| OAuth.CallbackTraces | pkg/auth/oauth/proxy.go:237-284 | every redirect to a client is for a spelling of an issued ciphertext, goes to the URI of an accepted authorize request, within 300 s for each callback, with a code bound to that request and, for a first callback, its state |
| OAuth.ClientReceives | pkg/auth/oauth/proxy.go:274-284 | the client that parses the encoded query of its redirect reads the code, for a first callback its own state, and every other registered parameter unchanged |
| OAuth.AuthorizeExactly | pkg/auth/oauth/proxy.go:170-216 | an authorize request goes on to the provider, with one ciphertext issued that decodes to it, exactly when it asks for a code, no parameter is empty, the method is S256 and the redirect URI has a loopback host or the scheme https; otherwise it is an invalid request and nothing is issued |
| OAuth.CallbackExactly | pkg/auth/oauth/proxy.go:218-284 | a callback redirects exactly when it has no error, a code, as state any spelling of a living ciphertext, and a successful exchange |
| OAuth.CallbackFails | pkg/auth/oauth/proxy.go:218-254 | the status and error of every callback that does not redirect: the provider's error, invalid_request for missing parameters or a dead state, 502 for a failed exchange; nothing is issued |
| OAuth.RedirectAlwaysParses | pkg/auth/oauth/proxy.go:274-278 | the branch for an unparsable redirect URI is never taken |
| OAuth.RedirectAllowed | pkg/auth/oauth/proxy.go:274-284 | every redirect to a client goes to a loopback host or by https, also where the passage through JSON changed its URI |
| OAuth.TokenTraces | pkg/auth/oauth/proxy.go:318-354 | every token response is for a spelling of an issued ciphertext and goes back to an authorize request with the same client and redirect URI whose challenge is the hash of the verifier, within 300 s for each callback plus 60 s, and a non-empty one is the grant of the exchange that minted the code |
| OAuth.TokenExactly | pkg/auth/oauth/proxy.go:288-340 | tokens are given exactly for the grant type authorization_code and any spelling of a living ciphertext bound to the client, redirect URI and verifier of the request; otherwise the error is invalid_request when a parameter is missing and invalid_grant when none is; refresh_token is forwarded and any other grant type unsupported |
| OAuth.HonestFlow | pkg/auth/oauth/proxy.go:170-355 | authorize, callback within 299 s and token request within 59 s, with any requests in between, end with exactly the provider's grant |
| OAuth.GrantBodyHolds | pkg/auth/oauth/proxy.go:338-350 | the response holds the provider's tokens, the optional ones when not empty, and a lifetime exactly when a whole second remained |
| OAuth.SecondsOf | pkg/auth/oauth/proxy.go:261 | whole seconds computed in doubles: the duration rounded down, or one more only beyond 9 000 000 s and within 1024 ns of the next second |
| OAuth.LifetimeOf | pkg/auth/oauth/proxy.go:261 | the sealed lifetime is positive exactly when at least one second remains, and then the remaining time rounded down, up to 1024 ns for very long ones |
| OAuth.ClientExpiry | pkg/auth/oauth/proxy.go:342-344 | the expiry a client computes differs from the true one by more than -1 s and at most 60 s, for a lifetime of 9 000 000 s or more at most 60 s and 1024 ns |
| Query.UnescapeEscape | pkg/auth/oauth/proxy.go:279-282 | form-unescaping an escaped component gives it back |
| Query.EscapeReads | pkg/auth/oauth/proxy.go:282 | which bytes are escaped, and how |
| Query.UnescapeSigns | pkg/auth/oauth/proxy.go:279 | a plus sign reads as a space, and a percent sign and two hexadecimal digits of either case as a byte |
| Query.UnescapeErrors | pkg/auth/oauth/proxy.go:279 | a percent sign before anything else is an error |
| Query.UnescapePlain | pkg/auth/oauth/proxy.go:279 | text without percent and plus signs reads as itself |
| Query.QueryReads | pkg/auth/oauth/proxy.go:279 | what is read from any query: a further segment k=v adds the unescaped value to those of the unescaped key, one without = the empty value, and an empty, semicolon or badly escaped one nothing |
| Query.ParseEncoded | pkg/auth/oauth/proxy.go:279-282 | parsing an encoded parameter map gives it back, in whatever order the keys are written |
| Query.RedirectRoundTrip | pkg/auth/oauth/proxy.go:279-284 | the client reads exactly the issued code, its own state, and every other registered parameter with its values in order; the query stays free of # and ? |
| Base64Url.DecodeEncode | pkg/auth/oauth/crypto.go:67-72 | decoding unpadded base64url gives the bytes back |
| Base64Url.Alphabet | pkg/auth/oauth/crypto.go:67 | the digits are the URL-safe alphabet in its order |
| Base64Url.Respelled | pkg/auth/oauth/crypto.go:72 | all spellings: line breaks anywhere are skipped, and other text decodes exactly when it is of the alphabet and of a possible length, to the bytes whose encoding it is but for spare bits |
| Utf8.CleanExactly | pkg/auth/oauth/crypto.go:46-98 | the passage through JSON changes a string exactly when it is not valid UTF-8, and a second passage never does |
| Utf8.CleanReads | pkg/auth/oauth/crypto.go:46-98 | scalar values come through and every byte that starts none becomes U+FFFD |
| JsonText.ReadPrintedObject | pkg/auth/oauth/crypto.go:46-98 | reading a printed object gives its members back in order, through all escapes, with their strings clean |
| Sealing.DecryptsObject | pkg/auth/oauth/crypto.go:45-99 | decrypting a sealed object as either kind of payload decodes that object with clean strings: nonce framing and text add and lose nothing |
| Sealing.SealRoundTrip | pkg/auth/oauth/crypto.go:45-135 | decrypting an encrypted payload gives every field back, empty and zero ones too, with clean strings and the timestamp of the sealing second |
| Sealing.SealsExactly | pkg/auth/oauth/crypto.go:45-135 | every field comes back unchanged if and only if all strings are valid UTF-8 |
| Sealing.OpensAsModelled | pkg/auth/oauth/crypto.go:71-99 | where all entries are sealed, decryption down to the text opens, of the strings that are not forgeries, exactly the spellings of issued ciphertexts and decodes them as the symbolic model does |
| Sealing.RunsAsModelled | pkg/auth/oauth/crypto.go:45-99 | the same in every run in which the handlers seal with encrypt |
| Sealing.HypothesesMet | pkg/auth/oauth/crypto.go:45-99 | some AEAD, run and presented string meet the hypotheses of the row above, and the string opens |
| Claims.ClaimString | pkg/auth/oidc_provider.go:177-211 | the branches and loops compute the rest of the first offered string with the prefix |
| Claims.ClaimExactly | pkg/auth/oidc_provider.go:177-211 | a claim has the non-empty value r exactly when it is the string prefix + r or a list whose first string with the prefix is; any other claim, or none, has the empty value |
| Claims.FirstMatchMeaning | pkg/auth/oidc_provider.go:184-210 | the value is what follows the prefix in the first string that has it, even when empty, and "" when none has |
| Claims.MixedLists | pkg/auth/oidc_provider.go:190-208 | a mixed list counts as the list of its strings |
| Claims.DecideRole | pkg/auth/oidc_provider.go:133-144 | the role decision with its fallback to the scopes |
| Claims.RoleExactly | pkg/auth/oidc_provider.go:133-144 | a verified token gets role r exactly when the role claim gives r, or gives nothing and the scopes give r, said by the shape of the claims |

## Left out

- Opening and creating the database, the existence checks, reading and template-expanding the files, verbose logging: I/O. A file that cannot be read or parsed is a script that fails.
- Runner.Database.Exec: one script is all or nothing, as where its text is one transaction (Postgres). Deaths and failures inside a script (DuckDB) are in Statements and Deaths, for the shipped scripts.
- Statements.StepsConverge: a statement is all or nothing, and so is a write of the version row.
- Deaths.ConvergesExactly: is about databases that one uninterrupted run could migrate; Statements.StepsConverge speaks of the others too.
- The version table is one row.
- Scripts before 0.0.9, which create tables without guards: where a folder holds them, the shipped results begin at a stored version that covers them.
- The root path is already clean; the walk joins its children to it as it is.
- The library's sorting algorithm. An insertion sort stands for it; Files.SortedUnique shows that the choice does not matter.
- Recovery.Process: assumes that a script which writes the version writes that of its own file, and that the folder is safe; Recovery.NoGapExactly shows that the second is necessary.
- Recovery.Converges: the stored version name is equal when pending versions that compare equal have one name; otherwise only equal in the order.
- Shipped.ShippedCompletes: is about runs that begin at or before 0.0.13; a run that begins later meets tables of any shape. Its clause "no key column can_impersonate" is the model's, as for the next two members.
- Completion.SucceedsExactly: SQL allows an update of a key column, which the model refuses, so for roles keyed by can_impersonate the only-if half is about the model; and the NOT NULL of the column that 0.0.18 adds is dropped, although DuckDB versions may refuse to add a column with a constraint.
- Shipped.FreshCompletes: the same two limits.
- Column types, NOT NULL, the index structures, the index lists and the `CREATE EXTENSION` that only Postgres executes, timestamps as defaults (`now()` counts as null), and updates of key columns.
- Backfill.BackfillsRows: is about DuckDB's white space class; TypeRefs.StripPrinted is about any.
- AES-GCM, SHA-256, url.Parse and rounding to doubles are parameters. Two sealings never give the same bytes, url.Parse treats all bytes from 0x80 on alike (OAuth.ParsesClean), and rounding is exact up to 2^53, monotone and within 2^-53. Failures of the random source and of encryption are left out.
- OAuth.HonestFlow: a handler reads the clock once, and the clock does not go back.
- The handlers are functions from a request to a response. That the response is written piece by piece, its JSON text, the headers, and the by-value copy of a payload before its timestamp is set are not captured.
- Normalisation of scheme, host and path by url.String, callbackURL, requestScheme, and the request to the provider.
- The refresh, revoke, metadata and registration handlers; a refresh_token request is one opaque response. The failure of the token handler on a form that cannot be parsed.
- OAuth.ClientReceives: the query that the client parses is the text after the first question mark.
- Effects.Leaves12: the settings have the columns and the key that 0.0.9 or 0.0.13 gives them.
- Effects.Leaves16: the table it inserts into has the columns and the key that 0.0.9 or 0.0.13 gives it.
- Effects.Leaves14: the settings are well-formed and keyed by `key`, as 0.0.9 and 0.0.13 create them.
- Sealing.RunsAsModelled: says nothing of a presented string that is a forgery; that these cannot be made is what AES-GCM is trusted for.
- Sealing.OpensAsModelled: the JSON reader covers flat objects of strings and integers without white space, without surrogate escapes, case-insensitive names or the int64 range check; no sealed text has any of these.
- JWT verification, OIDC discovery, the token extraction in front of the role decision and the user id and name claims.
- `cmd/server`, `pkg/cors`, `pkg/info`, `pkg/service`, `pkg/auth/auth.go` and the cluster code: wiring or implemented elsewhere.
