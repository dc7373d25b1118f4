# SupaKernel: proofs about the kernel's algorithms and protocols

SupaKernel is a backend core: sessions, row policies, migrations, a realtime outbox and a
conformance harness. This project models the parts of it that are algorithms or protocols and
proves what they are for. `dafny verify dfyconfig.toml` checks all of it.

| files | part |
|---|---|
| `Sessions.dfy`, `SessionLineage.dfy`, `SerialSessions.dfy`, `SignOuts.dfy` | refresh-token rotation: the rows, the statements, every interleaving, whose a token is, atomic calls, and what a sign-out reaches |
| `Migrations.dfy`, `MigrationReplays.dfy`, `MigrationRuns.dfy` | migration runs under crashes, faults, re-runs and lease take-overs, journals of earlier migrations, and single calls |
| `Dispatcher.dfy` | the outbox cursor, overlapping pumps and garbage collection |
| `CanonicalJson.dfy`, `JsonReader.dfy`, `Numbers.dfy`, `Text.dfy` | canonical JSON, a reader of it, and the texts of numbers and strings it rests on |
| `Bits.dfy`, `Sha256.dfy`, `Sha256Constants.dfy` | SHA-256 over JavaScript numbers, in place, with the bit operators and constants it uses |
| `Expressions.dfy`, `ExpressionReader.dfy`, `NormalForms.dfy`, `Evaluate.dfy`, `Meanings.dfy` | the expression language: serialisation, normal form, three-valued evaluation, and what its operators mean |
| `Policy.dfy`, `Storage.dfy`, `Mutations.dfy` | rules combined into plans, what columns do to values, and the write checks |
| `CheckLexer.dfy`, `CheckParser.dfy`, `CheckPrinter.dfy`, `CheckText.dfy`, `CheckWrapping.dfy`, `CheckRefusal.dfy` | the SQLite and PostgreSQL CHECK parsers |
| `CheckCasts.dfy`, `CheckCastText.dfy`, `CheckSpellings.dfy` | conditions with casts, as PostgreSQL prints them, and every spelling that either dialect reads |
| `UuidNormalization.dfy`, `Comparators.dfy`, `Reducers.dfy` | the conformance harness |
| `Embeds.dfy`, `RateLimits.dfy`, `RateRefusals.dfy` | the batched join, the token bucket |
| `SchemaDiffs.dfy`, `SchemaChanges.dfy`, `SchemaTargets.dfy` | the schema diff, its changes made one after the other, and what they reach |

Loops, cursors and rows that the program updates in place are methods and classes here, each
proved against a function or a stated property; the theorems are lemmas about those functions.
Sequences of moves (`Begin`, `Advance`, `Commit`, `Die`, ...) stand for schedules: a theorem about
all lists of moves is a theorem about every run.

## What does not hold

Where a promised property fails, the code is modelled as it is, and the condition under which the
property holds is proved. It is exact, except where a bullet says that it is sufficient.

- A migration that is taken back and made again on the journal path finds its steps in the journal of
  the first time and leaves out those whose postcondition holds, which is empty for most kinds: the new
  hash is recorded on the old schema (`RepeatedMigrationLeftOut`). A run that returns leaves what one
  transaction commits if and only if the steps left out would have changed nothing, for steps that each
  change a thing of their own (`ReturnedIffHarmless`); in general that is sufficient
  (`HarmlessReturned`, `HarmPaintedOver`).
- Neither CHECK parser reads a number with a sign or an exponent, such as -1
  (`NegativeNumberRefused`). On PostgreSQL a portable expression round-trips if and only if it holds
  none, on SQLite with the proviso that follows (`PgRoundTrip`, `SqliteRoundTrip`). PostgreSQL prints a negative number as a cast string, which is read back as a
  string (`CastNumberReadAsString`).
- The SQLite CHECK parser drops outer parentheses by counting characters, string contents included.
  A condition without such numbers round-trips if and only if that loop does not fire on its text;
  `QuotedParensRefused` gives a condition that is refused.
- The PostgreSQL CHECK parser does not read every condition that PostgreSQL prints. It does if and
  only if no left operand starts with a parenthesis, as a cast column does, no list is cast, and
  every cast type is a single name, which `double precision` is not (`PrintedReadIff`);
  `((name)::text = 'a'::text)` is refused (`CastColumnRefused`, `CastTextSpelled`).
- A check can pass before a write and fail on the rows that come back, when a value is retyped by its
  column: a number sent for an int64 or decimal column comes back as text (`RetypedColumnIsMissed`).
  Storage keeps every check if and only if every value fits its column (`UnchangedIffChecksKept`);
  for one check it is sufficient that the values it reads fit (`AllowedKept`, `ImagesKept`).
- So can a check with an IS test on an omitted column (`OmittedColumnIsMissed`). For one IS test of
  columns and literals the condition is exact (`IsTestKeptIff`); for a whole check it is sufficient
  that the columns under IS tests are given (`DefiniteVerdictKept`).
- Normalising an expression with a bare null among and/or terms can flip its verdict
  (`NormalizeFlipsUntyped`). For each single rewriting the condition is exact (`CollapseKeptIff`,
  `UnnestKeptIff`); for a whole expression it is sufficient that it is well typed
  (`NormalizeKeepsVerdict`).
- With autocommitted statements a revoked family can come back to life: exactly when a rotation had
  swapped its token and not yet inserted the child (`RevokedFamilyStaysDeadIff`).
- A sign-out that falls between the two statements of a sign-in ends the new session, but its token is
  stored afterwards and is active: exactly then (`SignedOutStaysOutIff`).
- Taking over a stale migration lease updates the row without looking at it again: it keeps runs
  apart if and only if the row is still there and nobody is at work (`TakeOverKeepsLockIff`). When
  the holder is only slow, a step is applied twice (`SlowHolderAppliesTwice`).
- Dangling references left by a rebuild are reported after the commit; the next run finds the new
  hash and reports noop (`ApplyTransactional`, `MigratedIsNoop`).
- Rate-limit buckets are named by action, colon and key. Limited actions of which one continues the
  other after a colon share buckets, and the window bound is lost (`SharedBucketIff`,
  `SharedBucketBreaksBound`, `SharedBucketLeavesRange`). The default rules are not affected.
- The schema diff names one item for each definition that has to go, so a definition held twice under
  two names is dropped once only; and it adds before it drops, so a definition that changes under its
  name collides with itself. It completes if and only if neither occurs (`DiffCompleteIff`,
  `RedefinedCheckCollides`). In the order of the planner, which sorts the steps again, the second
  depends on what comes first (`AnyOrderCompletesIff`).
- A parent row without a key is served the children of a key whose text is "null", if the batch has
  one (`KeylessServedNothingIff`, `NullKeyServed`).
- SHA-256 of 2^31 - 8 bytes or more ends in a range error (`Sha256Hex`).

## Model

| member | source | states |
|---|---|---|
| Sessions.EveryInterleaving | packages/auth/src/session.ts:114-195 | Under every statement-by-statement interleaving of rotations, revocations, logouts and sign-ins, with calls abandoned anywhere: a token has at most one child row, and a family has at most one claim to its next token, counting active tokens and calls that won the swap but have not inserted yet |
| Sessions.ApplyKeeps | packages/auth/src/session.ts:146-190 | Every single statement of every call keeps the protocol invariant behind the two bounds |
| Sessions.RevokedFamilyStaysDeadIff | packages/auth/src/session.ts:206-225 | With autocommitted statements, a family whose tokens are all revoked has no active token after any continuation, if and only if no call has swapped a token of it without having inserted the child |
| Sessions.SwappedCallRevives | packages/auth/src/session.ts:165-180 | A call that has won the swap inserts an active child of that family whatever was revoked meanwhile |
| SerialSessions.Database.RotateRefresh | packages/auth/src/session.ts:114-204 | One atomic rotation, written out: a winning one marks the token used, adds the child with the session, user and family of its parent, stamps the session and caches the child until the end of the grace window; the other branches (unknown, replayed, reused) and their rows; a fault before the commit leaves every row as it was, one after it loses only the answer |
| SerialSessions.Database.RevokeFamily | packages/auth/src/session.ts:206-225 | Every token of the family is revoked, every session of the family ends now, nothing else changes |
| SerialSessions.Database.RevokeSessions | packages/auth/src/session.ts:228-251 | Exactly the sessions in scope end and exactly their tokens are revoked, whatever order the loop takes |
| SerialSessions.Database.IssueSession | packages/auth/src/session.ts:30-59 | A session and its first token, active and without a parent, are added |
| SerialSessions.ReplayIsExact | packages/auth/src/session.ts:131-150 | After a rotation, whatever rotations and single statements of sign-outs and sign-ins run in between, presenting the same token inside its grace window gives exactly the child and access token of that first rotation and changes no row, and from the end of the window on it is refused |
| SerialSessions.LateReuseKills | packages/auth/src/session.ts:146-150 | A used or revoked token presented when nothing can be replayed is refused and its whole family dies |
| SerialSessions.RevocationIsLocal | packages/auth/src/session.ts:206-225 | Revoking a family changes nothing but the tokens of that family and the sessions that one of them names |
| SerialSessions.FamilyStaysDead | packages/auth/src/session.ts:206-258 | From then on, in every run where only rotations are atomic and the statements of sign-outs and sign-ins come in between, with a clock that does not go back: the family gains no token, has no active one, and none of its sessions is active |
| SerialSessions.AtomicRunInterleaves | packages/db-sqlite/src/core.ts:108-145 | Every run with atomic rotations is one of the interleavings of statements, ending in the same rows and calls |
| SerialSessions.SignOutAlone | packages/auth/src/session.ts:228-251 | The statements of a sign-out that meets no other call have together the effect of the loop above |
| SerialSessions.SignInAlone | packages/auth/src/session.ts:30-59 | So have the two statements of a sign-in |
| SerialSessions.EveryAtomicRun | packages/auth/src/session.ts:114-195 | So in every run with atomic rotations a token has at most one child and a family at most one active token |
| SessionLineage.EveryLineage | packages/auth/src/session.ts:160-180 | Under every statement-by-statement interleaving, with calls abandoned anywhere: the tokens of a family have one session and one user, a child has the session, user and family of its parent, and the session of every token is stored and belongs to its user |
| SessionLineage.EveryAnswer | packages/auth/src/session.ts:131-190 | The token of every answer a call ever gave is stored, under the session of the answer |
| SessionLineage.EveryCachedChild | packages/auth/src/session.ts:188-192 | The child cached for a token is its child, and its only one |
| SignOuts.UsedHasOneChild | packages/auth/src/session.ts:146-190 | In every run with atomic rotations a used token has exactly one child, the one cached for it |
| SignOuts.ScopeReached | packages/auth/src/session.ts:228-251 | Globally all sessions of the user end with their tokens, locally only the current one, with others all but the current one; every other session and token stays as it is |
| SignOuts.SignedOutForever | packages/auth/src/session.ts:228-251 | After a sign-out that met no other call, in every run that follows: no token that descends, through any number of rotations, from a token of an ended session is active, and its session is not active |
| SignOuts.SignedOutStaysOutIff | packages/auth/src/session.ts:30-59 | No token of an ended session is ever active again in any run if and only if no sign-in had stored that session and not yet its token |
| SignOuts.ActiveUntilEnded | packages/auth/src/session.ts:253-259 | A session is active from sign-in on, and once it is ended only before that moment |
| Migrations.EverySchedule | packages/schema/src/apply.ts:54-164 | After any schedule of runs, faults and deaths, from a journal that may name steps of the plan already, the schema is the start with a prefix of the steps taken once each in order, leaving out those that the start names and whose postcondition holds, and the journal names exactly that prefix besides what it named; once a run has returned, all steps are taken and the new hash is recorded |
| Migrations.FurtherRunIsNoop | packages/schema/src/apply.ts:55-58 | After a run has returned, any further run changes nothing and reports noop |
| Migrations.SectionStep | packages/schema/src/apply.ts:128-158 | Every statement of the run that holds the lease keeps the prefix property and the counts it will report |
| Migrations.AppliedAtPrefix | packages/schema/src/journal.ts:108-118 | The applied step ids read back from the journal are exactly those of the prefix and those that the start named |
| Migrations.TakeOverKeepsLockIff | packages/schema/src/journal.ts:84-97 | A take-over of a stale lease keeps runs apart if and only if the lease row is still there and no other run is at work: the update checks neither |
| MigrationReplays.SlowHolderAppliesTwice | packages/schema/src/journal.ts:84-97 | A reachable schedule in which the holder is only slow: a second run takes the lease over, both apply the step, and the schema is that of no prefix |
| MigrationReplays.ReturnedIffHarmless | packages/schema/src/apply.ts:128-147 | For a plan that one transaction would commit, whose steps each change a thing of their own: after any schedule, a run that has returned leaves what that transaction commits if and only if every step that the journal named at the start, and whose postcondition holds before its turn, changes nothing there |
| MigrationReplays.HarmlessReturned | packages/schema/src/apply.ts:128-147 | The if part, for steps of any kind |
| MigrationReplays.NeverMadeUp | packages/schema/src/apply.ts:134-138 | Once such a step would have changed something, no schedule whatsoever reaches the target |
| MigrationReplays.RepeatedMigrationLeftOut | packages/schema/src/plan.ts:482-495 | The input: from A to B, back, and to B again. The third run leaves its step out, having found it in the journal of the first, and records the hash of B on the schema of A |
| MigrationReplays.HarmPaintedOver | packages/schema/src/apply.ts:134-138 | Where two steps change one thing the condition is not exact: a later step can cover for the one left out |
| MigrationRuns.ApplyTransactional | packages/schema/src/apply.ts:53-122 | For every plan and database: noop and drift are answered first; else the transactional path commits all steps, journal rows and the hash, or leaves the database as it was when a fault strikes at any step or at the hash or the database rejects a step; dangling references found after a rebuild are reported on a database that is already migrated |
| MigrationRuns.MigratedIsNoop | packages/schema/src/apply.ts:55-58 | A run on a migrated database reports noop, also after such a report |
| MigrationRuns.ApplyJournaled | packages/schema/src/apply.ts:53-163 | For every plan and database, whether steps are accepted or not: nothing to do and drift are answered first, a lease that is not ten minutes old refuses; else some first steps are behind, the schema is the one they lead to and the journal has gained exactly the rows of those not left out; the call is done, with the new hash recorded, if and only if every step was left out or was accepted with its postcondition holding right after it and no fault struck; otherwise it failed at a rejected step, a fault or a postcondition, with the hash as it was found and the lease released unless the run died |
| MigrationRuns.RunAloneIsCall | packages/schema/src/apply.ts:53-163 | For every plan and database, the statements of the step machine, run to the end with no other run in between, leave what that call leaves and give its answer |
| MigrationRuns.JournaledRun | packages/schema/src/apply.ts:124-163 | From whatever prefix earlier runs left: never a shorter prefix, refused exactly on a live lease, complete exactly when no fault strikes a step that it applies or the hash, with the number of steps it applied and whether it left any out; the lease is left behind only by a run that dies |
| Dispatcher.EveryInterleaving | packages/realtime/src/dispatcher.ts:52-97 | At-least-once delivery over every interleaving of commits, overlapping pumps, faults and collections with any claimed cursor: every event up to the watermark, and every event no longer stored, is in a batch that some pump has returned, and every batch has strictly rising numbers |
| Dispatcher.ApplyKeeps | packages/realtime/src/dispatcher.ts:52-97 | Each of those moves keeps the invariant |
| Dispatcher.BatchComplete | packages/realtime/src/dispatcher.ts:54-62 | A limited fetch leaves out no stored event up to the last one it returns |
| Dispatcher.BatchTakesNext | packages/realtime/src/dispatcher.ts:52-62 | A stored event past the cursor is left out of a fetch only when the fetch has 5000 events, all before it |
| Dispatcher.BatchIsNext | packages/realtime/src/dispatcher.ts:52-83 | With pumps that do not overlap a fetch is the next 5000 events of the log after those delivered, or all that are left |
| Dispatcher.OutboxDispatcher.Pump | packages/realtime/src/dispatcher.ts:52-83 | With pumps that do not overlap, the concatenated results stay exactly the prefix of the log up to the cursor; a fault returns nothing and leaves the cursor |
| Dispatcher.OutboxDispatcher.Collect | packages/realtime/src/dispatcher.ts:86-97 | Collection removes exactly the old events at or below both the claimed cursor and the watermark, and keeps that prefix property |
| CanonicalJson.CanonicalInjective | packages/contracts/src/json.ts:24-41 | Two values have the same canonical text if and only if they are structurally equal with key order ignored; so jsonEquals is structural equality |
| CanonicalJson.CanonicalDecodes | packages/contracts/src/json.ts:24-37 | The text of a value can be told from whatever may follow it: unique decodability, for nested arrays, objects and escaped strings |
| JsonReader.CanonicalIsJson | packages/contracts/src/json.ts:24-37 | The canonical text of a value is JSON text: a reader written after the grammar of RFC 8259 reads it as that value |
| CanonicalJson.SortedKeys | packages/contracts/src/json.ts:33-36 | Every key once, in ascending order |
| CanonicalJson.QuoteDecodes | packages/contracts/src/json.ts:27-29 | A quoted string, with its escapes, ends where it ends |
| Numbers.ParseNumberText | packages/contracts/src/json.ts:27-29 | Reading the text of a number gives the number back |
| Expressions.StableKeyInjective | packages/schema/src/stable-key.ts:4-6 | Equal stable keys mean equal expressions |
| ExpressionReader.KeyReads | packages/schema/src/stable-key.ts:4-6 | A stable key is JSON text of an object from whose members the expression can be read back |
| Sha256.Sha256Hex | packages/contracts/src/hash.ts:29-91 | The in-place program over signed and unsigned JavaScript numbers computes the FIPS 180-4 digest for every message of fewer than 2^31 - 8 bytes, and ends in a range error for every longer one |
| Sha256Constants.ConstantsAreRoots | packages/contracts/src/hash.ts:8-40 | Round constant i is the first 32 bits after the point of the cube root of the prime with i primes below it, and initial word i that of its square root, as integer inequalities |
| Bits.BitwiseBits | packages/contracts/src/hash.ts:63-67 | And, or and exclusive or set a bit of the result when both, at least one, exactly one of the operands have it set |
| Bits.ShiftRightDivides | packages/contracts/src/hash.ts:19-21 | A shift to the right is division by a power of two |
| Bits.ShiftLeftMultiplies | packages/contracts/src/hash.ts:19-21 | A shift to the left is multiplication by a power of two modulo 2^32 |
| Sha256.RotrBit | packages/contracts/src/hash.ts:19-21 | Rotation by n brings bit i + n, counted around the word, to place i |
| Sha256.ChBits | packages/contracts/src/hash.ts:64-64 | Ch takes each bit from its second or third word as the first one says |
| Sha256.MajBits | packages/contracts/src/hash.ts:67-67 | Maj takes the majority of three bits |
| Sha256.SigmaBits | packages/contracts/src/hash.ts:48-66 | The four sigma functions are the sums without carry of three bits of the word, at the distances of section 4.1.2 |
| Sha256.LengthDenotes | packages/contracts/src/hash.ts:34-36 | The last eight bytes of the padded message, highest first, are the number of bits of the message |
| Sha256.FixedHexDenotes | packages/contracts/src/hash.ts:88-90 | The text of a word are lower-case hexadecimal digits that denote it |
| Sha256.BufferSizeFits | packages/contracts/src/hash.ts:31-33 | The buffer is the least number of whole blocks holding message, 0x80 and 64-bit length exactly below that bound; from there on it cannot hold the message |
| Sha256.ZeroBytes | packages/contracts/src/hash.ts:31-33 | The padding is the least that fills whole blocks (section 5.1.1) |
| Sha256.Pad | packages/contracts/src/hash.ts:30-40 | The padded buffer, byte by byte |
| Sha256.Machine.ScheduleStep | packages/contracts/src/hash.ts:50-56 | The mixed signed and unsigned sum of the schedule reduces to the word sum of section 6.2.2, which adds in another order |
| Sha256.Machine.RoundStep | packages/contracts/src/hash.ts:60-78 | So do the sums of a round |
| Sha256.Machine.URotr | packages/contracts/src/hash.ts:19-21 | rotr, an unsigned and a signed shift joined by a signed or, is rotation of the word |
| Sha256.Machine.ExtendSchedule | packages/contracts/src/hash.ts:50-56 | The loop over the schedule array computes the message schedule |
| Sha256.Machine.RunRound | packages/contracts/src/hash.ts:62-78 | One pass of the inner loop over the working variables is a round of section 6.2.2 |
| Sha256.Machine.RunBlocks | packages/contracts/src/hash.ts:46-86 | The loop over the blocks computes the hash chain |
| Sha256.PaddedWord | packages/contracts/src/hash.ts:88-90 | Unpadded hexadecimal, padded to eight digits, is the fixed-width text of a word |
| NormalForms.NormalizeExprDecides | packages/schema/src/normalize.ts:102-130 | Two expressions normalise to the same expression, and to the same stable key, if and only if they are equal up to reordering, re-nesting and singleton wrapping of and/or terms at any depth |
| NormalForms.NormalFormsDecideEquivalence | packages/schema/src/normalize.ts:102-130 | The same for any injective sort key |
| NormalForms.NormalizeExprIdempotent | packages/schema/src/normalize.ts:102-130 | Normalising twice is normalising once |
| NormalForms.NormalizeIsNormal | packages/schema/src/normalize.ts:102-130 | The result is flat, sorted and collapsed at every level |
| NormalForms.LawsSound | packages/schema/src/normalize.ts:102-130 | Every rearrangement, however it is composed, leaves the normal form alone |
| NormalForms.Derive | packages/schema/src/normalize.ts:102-130 | The normal form is itself reached by such rearrangements |
| NormalForms.SortSame | packages/schema/src/normalize.ts:110-118 | Sorting forgets the order of the terms |
| Evaluate.NormalizeKeepsVerdict | packages/schema/src/normalize.ts:102-130 | On every row, normalising keeps the three-valued result of a well-typed expression |
| Evaluate.NormalizeFlipsUntyped | packages/policy/src/expr-sql.ts:149-160 | On a bare null among the terms it does not: a verdict flips |
| Evaluate.CollapseKeptIff | packages/schema/src/normalize.ts:119-122 | Replacing an and/or of one term by the term keeps the result if and only if the term is true, false or unknown |
| Evaluate.UnnestKeptIff | packages/schema/src/normalize.ts:110-118 | Dissolving a nested and/or in the outer one keeps the result for or always, and for and unless the inner one is false only through a term that is no truth value while an outer term is unknown and none false |
| Evaluate.ResolveKeepsVerdict | packages/policy/src/expr-sql.ts:30-56 | Resolving claims and context keeps every verdict and leaves no reference to the principal |
| Evaluate.ClaimValue | packages/policy/src/expr-sql.ts:60-70 | The cursor walk reads what the path addresses, null where it leaves the objects |
| Evaluate.DefiniteVerdictKept | packages/policy/src/expr-sql.ts:135-200 | A definite result on a partial row, with the columns under IS tests present, is kept by every completion of the row |
| Evaluate.IsFreeCovered | packages/policy/src/expr-sql.ts:181-186 | Without IS tests that proviso always holds |
| Evaluate.IsTestKeptIff | packages/policy/src/expr-sql.ts:181-186 | An IS test of columns and literals is kept by every completion of a row if and only if both sides are given, or are one column, or one of them holds an array or object |
| Evaluate.LogicValue | packages/policy/src/expr-sql.ts:149-162 | What and/or evaluate to depends only on which truth values occur among the terms |
| Meanings.NumbersCompared | packages/policy/src/expr-sql.ts:179-205 | On two numbers every comparison is that of the real numbers their decimals denote, so exactly one of less, equal and greater holds |
| Meanings.StringsCompared | packages/policy/src/expr-sql.ts:179-206 | On two strings less means that the first one ends, or has the smaller character, at the first place where they differ, and every other comparison follows from that and equality |
| Meanings.TextsCompared | packages/policy/src/expr-sql.ts:202-207 | Unless both sides are numbers they are ordered by their texts |
| Meanings.BeforeTrichotomy | packages/policy/src/expr-sql.ts:205-207 | Of two different texts exactly one comes before the other |
| Meanings.EqualityDecided | packages/policy/src/expr-sql.ts:179-182 | Equality is that of the values with their types, identity for arrays and objects, and inequality its negation |
| Meanings.InDecided | packages/policy/src/expr-sql.ts:195-196 | IN holds if and only if the right side is a list with an item that is the left value |
| Meanings.UnknownSides | packages/policy/src/expr-sql.ts:174-177 | A comparison other than IS is unknown if and only if a side is missing or null; IS is then true if and only if both are |
| Meanings.LikeDecided | packages/policy/src/expr-sql.ts:209-218 | LIKE holds if and only if the text can be split into one piece for each character of the pattern: any run on one line for a percent sign, any one character for an underscore, else that character, for ILIKE in either case |
| Meanings.LogicDecided | packages/policy/src/expr-sql.ts:149-162 | And is true when all terms are and false when one is false, or is true when one term is and false when all are |
| Meanings.NotDecided | packages/policy/src/expr-sql.ts:145-148 | NOT exchanges true and false and leaves unknown |
| Policy.PlanVerdict | packages/policy/src/plan.ts:45-105 | For an unprivileged principal on a table with rules, the plan passes a row if and only if some applicable permissive clause and every applicable restrictive clause hold, with claims and context read from that principal; the resolved predicate mentions no principal; the table is denied exactly when no permissive rule applies |
| Policy.CombineVerdict | packages/policy/src/combine.ts:47-94 | Permissive clauses are joined by or, restrictive ones by and, also for one clause and for none |
| Policy.Applicable | packages/policy/src/combine.ts:24-45 | The rules of a mode that apply, and no others |
| Policy.ExemptPassesAll | packages/contracts/src/principal.ts:19-25 | A service principal with the service role and a secret key, and on a table without rules everybody, gets a plan that passes every row |
| Policy.OthersNeedGrants | packages/policy/src/plan.ts:76-105 | Anybody else, on a table with rules of which no permissive one is for the action and the role, gets a plan that passes no row |
| Policy.ClausesCarried | packages/policy/src/combine.ts:47-94 | With a grant, rows are filtered for every action but insert, and checked for insert, update and storage writes |
| Storage.FitsIffUnchanged | packages/db-sqlite/src/dialect.ts:17-32 | Marshalling, the affinity of the column and normalizeScalar together return a value as it was sent if and only if it is already in the form its portable type returns |
| Storage.StoredByType | packages/db-sqlite/src/dialect.ts:17-32 | What comes back of a value, type by type |
| Storage.UnchangedIffChecksKept | packages/data/src/execute.ts:319-340 | A row comes back as it was sent if and only if every check without IS tests that it passed it still passes: once a value is retyped, some check flips |
| Storage.RetypedNumberFlips | packages/db-sqlite/src/dialect.ts:20 | The number ten sent for an int64 column passes "greater than nine" and the text that comes back fails it |
| Storage.ReadsFitKeepVerdict | packages/policy/src/expr-sql.ts:135-200 | A check gives one result before and after storage when every value it reads fits |
| Mutations.Table.Insert | packages/data/src/execute.ts:174-219 | A row that fails the check before the write is never written; the second check runs on the rows as stored and completed; when the columns under IS tests are sent and the values read fit their columns, passing the first check means passing the second, so a refused insert leaves the table unchanged even without rollback |
| Mutations.Table.Update | packages/data/src/execute.ts:184-219 | The first check runs on the images of exactly the selected rows with the patch as sent, the second on those rows as they read back; the outcome and the table after both, with and without rollback; if the patched values that the check reads fit their columns the two agree, and a refused update leaves the table unchanged |
| Mutations.Table.Write | packages/data/src/execute.ts:209-210 | The statement patches exactly the selected rows in place and returns exactly those, as stored |
| Mutations.AllowedKept | packages/data/src/execute.ts:184-219 | A row allowed as sent is allowed once it is stored and its omitted columns are filled in, under those two provisos |
| Mutations.ImagesKept | packages/data/src/execute.ts:193-219 | The images pass the first check if and only if the returned rows pass the second, when the patched values that are read fit |
| Mutations.ImagesAreReturnedIff | packages/data/src/execute.ts:193-210 | The rows that the first check sees are the rows that come back if and only if nothing is selected or the whole patch fits |
| Mutations.UpdatedAllowed | packages/data/src/execute.ts:188-206 | After an update that passed, with values that fit where the check reads them, every selected row satisfies the check and every other row is as before |
| Mutations.OmittedColumnIsMissed | packages/policy/src/rewrite.ts:34-42 | With an IS test on an omitted column the first check can pass and the second fail |
| Mutations.RetypedColumnIsMissed | packages/data/src/execute.ts:184-219 | With a number sent for an int64 column the first check can pass and the second fail, whatever else is filled in |
| CheckText.PgRoundTrip | packages/db-postgres/src/check-parser.ts:40-328 | For every portable expression, printing it with only the parentheses precedence needs and parsing it as PostgreSQL text gives it back if and only if none of its numbers has a sign or an exponent; otherwise it is refused |
| CheckWrapping.SqliteRoundTrip | packages/db-sqlite/src/check-parser.ts:44-318 | For every portable expression the SQLite parser gives the printed expression back if and only if none of its numbers has a sign or an exponent and the loop that drops outer parentheses does not fire on the text; otherwise it refuses |
| CheckRefusal.QuotedParensRefused | packages/db-sqlite/src/check-parser.ts:301-318 | A concrete portable condition, with parentheses inside strings, that is refused |
| CheckRefusal.NegativeNumberRefused | packages/db-postgres/src/check-parser.ts:40-122 | A comparison with -1 is refused by both parsers in its printed form |
| CheckSpellings.SpellingParsed | packages/db-sqlite/src/check-parser.ts:44-306 | In both dialects, every text that spells a condition is parsed as it: with = or == in SQLite, <> or !=, any operand with its table, numbers with needless zeros, CAST of a column in SQLite, casts and grouped operands in PostgreSQL, IS NULL and IS NOT NULL, LIKE as word or symbol, lists in the form of either dialect, parentheses anywhere around conditions, keywords in any case, names bare or in any of the quotes |
| CheckSpellings.PhraseSaid | packages/db-postgres/src/check-parser.ts:167-262 | The same on tokens, at every precedence level and in front of anything that may follow |
| CheckSpellings.OperandSaid | packages/db-sqlite/src/check-parser.ts:248-294 | Every spelling of an operand, through nested casts, is read as the operand |
| CheckSpellings.InequalityNegates | packages/db-sqlite/src/check-parser.ts:114-123 | On every row, what either symbol for inequality is parsed to is true when what every symbol for equality is parsed to is false, false when that is true, and unknown when that is unknown |
| CheckText.RenderPrinted | packages/db-sqlite/src/check-parser.ts:44-112 | A printed expression is tokenised exactly when none of its numbers has a sign or an exponent |
| CheckPrinter.TokensRoundTrip | packages/db-sqlite/src/check-parser.ts:125-294 | Both parsers invert rendering on tokens |
| CheckPrinter.RenderParses | packages/db-sqlite/src/check-parser.ts:160-194 | At every precedence level, and in front of anything that may follow |
| CheckCasts.PrintedReadIff | packages/db-postgres/src/check-parser.ts:200-324 | Any text of a condition as PostgreSQL prints it, with casts on operands and parentheses around cast operands and around conditions, at any depth, is read back with its meaning if and only if no left operand starts with a parenthesis, no list is cast, and every cast type is a single name, with sizes or an array mark but not both; otherwise it is refused |
| CheckCasts.ConditionRead | packages/db-postgres/src/check-parser.ts:167-262 | The same at every precedence level and in front of anything that may follow |
| CheckCasts.SideRead | packages/db-postgres/src/check-parser.ts:264-324 | An operand is read, through any nesting of casts and parentheses, exactly when its cast types are single names |
| CheckCasts.GroupedRefused | packages/db-postgres/src/check-parser.ts:200-209 | A left operand that starts with a parenthesis is taken for a parenthesised condition and refused, whatever follows |
| CheckCastText.CastColumnRefused | packages/db-postgres/src/introspect.ts:252-255 | So the text ((name)::text = word::text) with its quoted word, for any name and word, is refused with the outer parentheses that the caller leaves on it |
| CheckCastText.CastNumberReadAsString | packages/db-postgres/src/check-parser.ts:289-324 | A number that PostgreSQL prints as a cast string, as it does negative ones, is read back as the string |
| CheckWrapping.ParsedIsBalanced | packages/db-sqlite/src/check-parser.ts:160-294 | Whatever the SQLite parser accepts has balanced parentheses |
| CheckText.ParseCheck | packages/db-sqlite/src/check-parser.ts:301-306 | Parsing ends with an expression or a refusal on every text, and computes the grammar |
| CheckText.Balanced | packages/db-sqlite/src/check-parser.ts:308-318 | The guard of that loop |
| CheckText.TextLexes | packages/db-sqlite/src/check-parser.ts:44-112 | Tokens written with a space between them are read back |
| CheckLexer.Tokenize | packages/db-sqlite/src/check-parser.ts:44-112 | The cursor loop reads the tokens of the grammar or refuses |
| CheckLexer.ReadQuotedFrom | packages/db-sqlite/src/check-parser.ts:52-78 | Quoted text with doubled quotes, read with a cursor |
| CheckParser.Parser.Parse | packages/db-sqlite/src/check-parser.ts:137-141 | The parser object consumes all tokens or refuses, and computes the grammar |
| CheckParser.Parser.OrExpr | packages/db-sqlite/src/check-parser.ts:160-167 | The or loop, with the cursor left in front of what it did not read |
| CheckParser.Parser.Primary | packages/db-sqlite/src/check-parser.ts:186-194 | Parentheses or a comparison |
| CheckParser.Parser.Comparison | packages/db-sqlite/src/check-parser.ts:196-240 | Every comparison form of both dialects |
| CheckParser.Parser.OperandSqlite | packages/db-sqlite/src/check-parser.ts:248-294 | Columns, literals and CAST of a column |
| CheckParser.Parser.OperandPg | packages/db-postgres/src/check-parser.ts:289-324 | Columns, literals and parenthesised operands, with casts dropped |
| CheckParser.Parser.StripCast | packages/db-postgres/src/check-parser.ts:264-287 | Any number of casts, with balanced type arguments |
| UuidNormalization.NormalDecidesRenaming | labs/conformance/src/normalize.ts:154-191 | With fresh contexts, two values without placeholder-looking strings normalise alike if and only if an injective renaming of UUIDs, blind to letter case, carries one to the other |
| UuidNormalization.RenamedSameNormal | labs/conformance/src/normalize.ts:154-191 | One direction, from any pair of contexts that the renaming relates |
| UuidNormalization.SameNormalRenamed | labs/conformance/src/normalize.ts:154-191 | The other: equal results determine the renaming, and it only grows |
| UuidNormalization.PlaceholderCollides | labs/conformance/src/normalize.ts:28-34 | The proviso is needed: a written-out placeholder collides with a UUID |
| UuidNormalization.UuidShape | labs/conformance/src/normalize.ts:24-24 | A UUID is five groups of hexadecimal digits between hyphens, with a version from 1 to 8 and one of the variants 8, 9, a, b |
| UuidNormalization.NormalizeContext.Bijection | labs/conformance/src/normalize.ts:28-34 | A UUID keeps its placeholder; a new one gets the next number |
| UuidNormalization.NormalizeContext.Walk | labs/conformance/src/normalize.ts:154-191 | The walk that grows the context computes the normal form |
| Comparators.Compare | labs/conformance/src/compare.ts:102-146 | Each mode reports nothing if and only if it takes the two values for the same |
| Comparators.ExactReportsNothingIff | labs/conformance/src/compare.ts:43-60 | The exact comparator reports nothing if and only if the values are equal once absent keys and trailing items are read as null |
| Comparators.DiffExact | labs/conformance/src/compare.ts:43-60 | The recursion that pushes onto the report pushes those entries and keeps the earlier ones |
| Comparators.EveryEntryTells | labs/conformance/src/compare.ts:43-60 | Every entry names a path on which the two values lead to the expected and the actual value of the entry, and those differ |
| Comparators.DiffMultiset | labs/conformance/src/compare.ts:62-94 | Exactly the signed differences of multiplicity are reported, each once |
| Comparators.MultisetReportsNothingIff | labs/conformance/src/compare.ts:62-94 | Hence nothing if and only if the multisets are equal |
| Reducers.ReduceScenario | labs/conformance/src/reduce.ts:46-113 | For every evaluation the reducer ends, with a scenario made of the original steps in order that shows the same signature; the operations phase and the setup phase each end one-minimal, and each seed list becomes the shortest prefix that keeps the signature; refused exactly when nothing is shown |
| Reducers.DropOneByOne | labs/conformance/src/reduce.ts:58-90 | The loop of both phases: keeps the signature, keeps order, ends one-minimal |
| Reducers.ShrinkSeed | labs/conformance/src/reduce.ts:93-106 | The shortest prefix of one seed list, or the step unchanged |
| Reducers.ReduceDivergence | labs/upstream-evidence/src/reduce.ts:39-60 | Ends with original steps in order, the same signature, and one-minimal under removal of every occurrence of a step |
| Embeds.AttachEmbed | packages/data/src/execute.ts:229-290 | The batched join equals the nested loop: every parent with a key gets exactly its visible children in query order, first or null when many-to-one, nothing when denied; every other column of every parent row is unchanged; a parent without a key gets nothing unless some key of the batch reads "null" |
| Embeds.GroupIsMatching | packages/data/src/execute.ts:268-286 | The group of a key is what the nested loop finds for it |
| Embeds.FirstChildServed | packages/data/src/execute.ts:280-287 | Where one row is embedded, a parent with a key is given the first visible child of it, or none |
| Embeds.KeylessServedNothingIff | packages/data/src/execute.ts:275-286 | A parent without a key is served nothing if and only if no key of the batch that reads "null" has visible children |
| Embeds.NullKeyServed | packages/data/src/execute.ts:275-286 | A batch in which it is served the child of another parent |
| RateLimits.WindowBound | packages/auth/src/ratelimit.ts:28-44 | In every run with a clock that does not go back, whatever the mix of keys and actions, the requests let through for one limited key in a window never exceed the capacity and what the window refills, if no limited action continues another after a colon |
| RateRefusals.LetThroughIff | packages/auth/src/ratelimit.ts:28-44 | From an empty store, whatever requests came before: a request of a limited action is let through if and only if, since every earlier moment, capacity and refill cover it together with the requests let through since |
| RateLimits.TokensStayInRange | packages/auth/src/ratelimit.ts:28-44 | Stored tokens stay between 0 and the capacity |
| RateLimits.SharedBucketIff | packages/auth/src/ratelimit.ts:31 | Two actions share a bucket for some keys if and only if one continues the other after a colon |
| RateLimits.SharedBucketBreaksBound | packages/auth/src/ratelimit.ts:28-44 | For every such pair there are rules and requests that break the bound |
| RateLimits.SharedBucketLeavesRange | packages/auth/src/ratelimit.ts:28-44 | For every such pair there are rules and a request that leave more tokens than one of the two actions can hold |
| RateLimits.DefaultsAreApart | packages/auth/src/ratelimit.ts:47-52 | The default rules have no such pair |
| RateLimits.RateLimiter.Take | packages/auth/src/ratelimit.ts:28-44 | One take: the answer and the buckets afterwards; an action without a rule passes and changes nothing |
| SchemaTargets.DiffCompleteIff | packages/schema/src/diff.ts:40-150 | Made one after the other in phase order on a catalogue of named definitions, the changes of the diff are all accepted and turn the source into the target, up to column order, names of constraints and indexes, sequence bounds and policies, if and only if no table has to lose a definition that it holds twice and nothing is added under a name that its table already uses |
| SchemaTargets.AnyOrderCompletesIff | packages/schema/src/plan.ts:140-159 | In any other order too, if and only if no such definition is held twice and every name that is added and taken at the start is dropped first |
| SchemaTargets.RearrangedCompletes | packages/schema/src/plan.ts:156-159 | So with free names any rearrangement of the diff, such as sorting its steps by phase and identifier, does what the diff does |
| SchemaTargets.RedefinedCheckCollides | packages/schema/src/diff.ts:176-203 | A check that keeps its name and changes its definition: the diff adds it while the old one is there and is refused, while dropping first completes |
| SchemaTargets.ReachesIffViewsAgree | packages/schema/src/diff.ts:40-150 | The catalogue of one schema is that of another up to those things if and only if their views agree |
| SchemaTargets.NamedCompleteIff | packages/schema/src/diff.ts:163-173 | For one kind of constraint or index, the keys left are those of the target if and only if no dropped definition occurs twice |
| SchemaDiffs.DiffEmptyIff | packages/schema/src/diff.ts:40-150 | The change list is empty if and only if source and target already agree that far |
| SchemaDiffs.DiffSchemas | packages/schema/src/diff.ts:40-86 | The list holds exactly the needed changes, in phase order, each of them once when names are unique within a table and kind |
| SchemaDiffs.ColumnChangesComplete | packages/schema/src/diff.ts:152-161 | The named respects are all in which the columns differ: none if and only if they are equal |
| SchemaDiffs.ColumnChangesExact | packages/schema/src/diff.ts:152-161 | Each respect is named if and only if the columns differ in it |
| SchemaDiffs.AddedColumnMarked | packages/schema/src/diff.ts:92-100 | An added column is marked if and only if it has no default, is not generated and refuses null |
| SchemaDiffs.PhasesInOrder | packages/schema/src/diff.ts:183-203 | The order of the kinds of changes |
| SchemaDiffs.DiffNamed | packages/schema/src/diff.ts:163-173 | Adds what is new and drops what is gone, by key, each once |

## Left out

- Sessions.EveryInterleaving: tokens are keyed by the hash of their text and a fresh child's hash is assumed unseen, because hashing and randomness are parameters; signing, claims and audit rows are not modelled.
- SerialSessions.Database.RotateRefresh: the clock is read at most twice in a call here (once the row is read, and when a family is revoked), because the other readings only stamp audit columns.
- SerialSessions.FamilyStaysDead: that a rotation is whole against the statements of other calls is an assumption; on the interactive SQLite adapter a statement without a transaction uses the same connection, and can fall inside an open rotation and be rolled back with it.
- Migrations.EverySchedule: holders are distinct and a stale lease is taken over only while its row is there and its holder no longer runs, because the take-over checks neither; steps have distinct ids, are accepted in the order in which the run takes them, and their postconditions last.
- MigrationReplays.ReturnedIffHarmless: each step changes a thing of its own and its postcondition looks at that only, as with the changes of a diff unless one name is dropped and added again.
- MigrationRuns.ApplyJournaled: takes and returns the database as a value instead of updating an object; foreign-key suspension, statement text, journal timestamps and checksums are not modelled.
- Dispatcher.EveryInterleaving: events become visible in the order of their numbers, as with a single writer; the cursor itself may go back when pumps overlap, and no claim is made against that.
- CanonicalJson.CanonicalInjective: numbers are exact decimals written as ECMA-262 does, without rounding, negative zero or NaN; strings are sequences of characters without lone surrogates; keys sort by code point, where the program sorts by UTF-16 code unit, which differs above U+FFFF.
- NormalForms.NormalizeExprDecides: terms sort by code point, a total order of their keys, where the program uses localeCompare, which also depends on the locale and ties on canonically equivalent texts.
- Meanings.LikeDecided: letter case is that of ASCII only, and `_` stands for one character rather than one UTF-16 code unit.
- Evaluate.DefiniteVerdictKept: an omitted column named like a property that every JavaScript object has, such as "constructor", counts as omitted here and is found there.
- Evaluate.ClaimValue: nor does a claim path find such a property.
- Evaluate.ResolveKeepsVerdict: an array or object is identical only to what another read of the same column gives; a claim path that addresses one and is compared with itself is a single object in the program, and equal there.
- Storage.FitsIffUnchanged: what SQLite prints for a number, what number it reads in a text, and what JSON.stringify prints are parameters; byte values and dates arrive as the JSON values they are sent as.
- CheckCasts.PrintedReadIff: the text is any whose tokens are those of the condition; negative numbers and expressions beyond comparisons, null tests, lists and and/or/not are not among the conditions.
- CheckSpellings.SpellingParsed: between two tokens of a text there is one space; numbers have no sign or exponent, as neither parser reads those; for SQLite the text is what is left when the outer parentheses are off.
- JsonReader.CanonicalIsJson: the reader takes no white space between tokens and no escape of half a surrogate pair, which canonical text never holds.
- CheckText.PgRoundTrip: the printer is the model's own rendering of the grammar; numbers with two points, which the parsers turn into NaN, are refused here; a name has to fit one of the dialect's quotes, as does every name that the dialects accept.
- Mutations.Table.Insert: each returned row is a requested row as stored, with columns filled in; which rows conflict is not modelled.
- Mutations.Table.Update: no other write comes between the select of the first check and the statement.
- UuidNormalization.NormalDecidesRenaming: only the UUID normaliser is declared; JWT, timestamp, URL and constraint-name normalisers are not modelled.
- Comparators.DiffMultiset: reports are stated as a set of entries without repetition; their order is that of first appearance and is not claimed.
- Embeds.AttachEmbed: normalizeScalar is the identity, one embed at a time, and String is assumed to keep the keys of a batch apart.
- RateLimits.WindowBound: real arithmetic; one process.
- SchemaTargets.DiffCompleteIff: a change does what it names; the statements compiled for it are not modelled, and some changes get none (an owner that goes, a generated flag). Names are scoped to a table and kind, dropping a column takes no constraint with it, and definitions are their key texts. The SQLite rebuild, which replaces the changes of a table, and rename mappings are not modelled.
- The transaction depth and nesting refusal of the SQLite adapter, its driver calls and prepared statements.
- The rest of schema normalisation (sorting of tables, columns and constraints), plan synthesis, rebuilds and drift detection.
- Field masks, read fingerprints, wildcard expansion, projection of rows, paging and counting.
- SQL text, dialect printers, introspection, HTTP, realtime frames, object storage, mail, CLI and the other adapters: plumbing around the parts above.
