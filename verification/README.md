# Vitalnix: verified model

Vitalnix administers user accounts: it synchronises a user database with an external list, allots login
names, drives several database back-ends, hashes passwords, and charges print jobs. This project models
the algorithms behind these in Dafny and proves what they are for. `dafny verify dfyconfig.toml` checks
all of it.

## The parts

* **Synchronisation** (`SyncSpec`, `SyncOps`, `SyncOutcome`, `SyncRun`, `SyncEngine`, `SyncTheorems`,
  `SyncConvergence`, `SyncHistory`, `SyncTags`, `SyncMeaning`, `SyncExamples`, over `ShadowDriver`, `Vxdb`,
  `OrderedMap`, `LoginNames`).
  `SyncEngine` is the program: a workspace object and a database object that its methods change.
  `SyncSpec` says on values what the program computes, and the other modules prove what follows: a run
  that is cut off can be repeated, the group converges to the list, and over whole histories nobody is
  deleted early. `SyncMeaning` says what a run does of the fields of users and entries alone. A run may skip
  some of its parts and may be cut off after any number of single changes.
* **Edit distance** (`Levenshtein`), **word-wise comparison** (`WordCompare`, with `Decimal`).
* **Password hashing** (`Feistel`, `Blowfish`, `Radix64`, `BcryptBase64`, `BcryptKey`, `BcryptSchedule`,
  `BcryptHash`, `BcryptReference`). The network and the schedule are generic in the type of words;
  `Blowfish` and `BcryptHash` instantiate them with 32-bit vectors. `BcryptReference` says the hash once
  more, on characters, bytes and plain memory, and proves that it is the same. The tables are arbitrary.
* **Print accounting** (`PrintSource`, `PrintAccounting`, `PrintGray`).
* **Drivers** (`ShadowDriver`, `MultiDriver`, `TextFields`, `FlatFiles`), **group rebuild**
  (`GroupBuild`), **quoting** (`Quoting`).

## Where the code departs from what is meant

The model follows the code. Each of these is stated as an exact condition, with an input that shows it.

* The comparison tests the new group tag against the user's UUID (`src/libvxmdsync/proc.c:117`):
  `SyncTags.TagRightIff`, `SyncExamples.TagStaysWrong`.
* Timer plus deferral is a 32-bit sum (`src/libvxmdsync/proc.c:101`): `SyncConvergence.EarlyExpiryIffWrap`.
* A run that does not come to the request to stop a timer, because it is cut off before or skips its
  modifications, leaves the timer running, so a member may be deleted although a run since its timer
  started listed it: `SyncHistory.NoEarlyDeletion` names exactly these runs, `SyncHistory.TimerStoppedIff`
  and `SyncHistory.LostStopDeletes` say that there are no others, `SyncExamples.LostStop` is a history in
  which it happens, and `SyncHistory.RemovedExactly` says of every history when a member goes.
* The tool does not call the modifications at all when there is no timer to change, so group tags wait
  until there is one (`src/clutils/usersync.c:205-208`): `SyncTags.TagsWaitForTimers`,
  `SyncExamples.TagWaits`.
* The tool goes on to the deletions when the additions are declined (`src/clutils/usersync.c:174-187`). A run
  that deletes without adding frees names and ids, so a rerun need not end like the whole run:
  `SyncExamples.ResumableIff`, `SyncExamples.IdIsReused`.
* Digit runs are compared as 32-bit ints (`src/libvxmdfmt/extra.c:94-97`): `WordCompare.PlacedRightIffTame`,
  `WordCompare.LargeNumbersCycle`.
* The product in the gray conversion has 32 bits and bounds a chunk at 65793 pixels, not at the number in
  the comment (`src/lpacct/drop.c:230-234`): `PrintGray.AllExactIff`. The first weight is 78, where the
  comment says 76.
* The traversal of several modules frees an inner traversal without forgetting it (`src/drivers/mmd.c:313`):
  `MultiDriver.TraversalIsUnionIff`, `MultiDriver.SecondModuleIsLost`.
* The highest id is kept in an int (`src/drivers/mmd.c:477`): `MultiDriver.AlwaysRightIff`,
  `MultiDriver.MisledChoice`. In the shadow
  driver it never moves at all, which the scan makes up for.
* The reserved tail of a passwd line is written without its colon (`src/drivers/shadow/fspasswd.c:95-96`):
  `FlatFiles.RestoredIff`, `FlatFiles.SecondWriteIff`, `FlatFiles.TailIsLost`.

## Conventions

* A C string is a sequence without NUL. A NULL string and an empty one are the same unless the code tells
  them apart; an absent value is `None`.
* `-ENOSPC` passes through an unsigned return in the source; here it is a result of its own.
* The day of a run is fixed: a run does not cross midnight.
* Ranges of ids start above 0 and end below the largest unsigned value, where the scan would not stop.
* The methods of the synchronisation program take every database, read-only ones and ones with repeated
  names included. Results on runs and histories take days after day 0, with day plus deferral inside 32
  bits, and a database in which login names, and members' UUIDs, are distinct; every run keeps them so.
* Conversions to int and subtraction of ints wrap, as on the machines the program runs on; C leaves an
  overflowing subtraction undefined. Of the three comparisons in `WordCompare.LargeNumbersCycle` the last
  one overflows.
* The target group of a synchronisation has a group id. Group names matter only to users that carry one.
* Running totals of ink are unbounded; `PrintAccounting.TotalBound` says when 64 bits hold them.

## Model

| member | source | states |
|---|---|---|
| SyncEngine.Workspace.CompareUser | src/libvxmdsync/proc.c:56-132 | one delivered user: refused when its login name was seen before, otherwise exactly one step of the comparison, which claims its entry, counts it and puts its name in the one list its decision asks for |
| SyncEngine.Workspace.Compare | src/libvxmdsync/proc.c:51-145 | the traversal ends with the lists that are defined by membership, presence and timers over the whole database, or aborts exactly when a name is delivered twice |
| SyncEngine.Workspace.Fixup | src/libvxmdsync/fixup.c:23-55 | in UUID order every remaining entry gets the first free variant of its name, in place, and the names are recorded; it aborts exactly when some entry has no free variant |
| SyncEngine.Workspace.Add | src/libvxmdsync/proc.c:168-302 | the database after the additions made, in order; it stops at the first addition that cannot be made, which in a read-only database is the very first |
| SyncMeaning.NewAccount | src/libvxmdsync/proc.c:209-255 | after all additions every listed UUID that nobody of the group had belongs to a new user: full name, tag and UUID are the listed ones, the home is the base, a slash and the login name, the group id is the target's, the timer is clear, every other account field is the default, and name and id were unused |
| SyncMeaning.OnlyListedAreNew | src/libvxmdsync/proc.c:209-255 | and in every run, cut off or not, a user under a new name is such a one |
| SyncEngine.Workspace.Mod | src/libvxmdsync/proc.c:304-319 | tags, timers to start and timers to stop are applied in that order, each to the first user of its name; a failure, of a missing user or a read-only database, leaves exactly the requests before it done |
| SyncMeaning.RequestsInOrder | src/libvxmdsync/proc.c:304-319 | group tags are requested first, then timers to start, then timers to stop, and removals last |
| SyncEngine.Workspace.UpdateTags | src/libvxmdsync/proc.c:408-431 | the group tags of the update list, one change per entry, up to a user that does not exist or a refusal |
| SyncEngine.Workspace.SetTimers | src/libvxmdsync/proc.c:433-474 | every listed user gets the day, up to one that does not exist or a refusal |
| SyncEngine.Workspace.Delete | src/libvxmdsync/proc.c:321-405 | exactly the listed users are gone, the first of each name; names that are gone already are passed over, and a read-only database fails at the first that is there |
| SyncEngine.Workspace.Run | src/libvxmdsync/proc.c:51-405 | for every database a run of the parts agreed to ends in one of six ways, each under its exact condition and with exactly the database reached by the changes made so far |
| SyncOps.RequestsAreEffects | src/libvxmdsync/proc.c:304-405 | requests carried out one by one, each on the first user of its name, have the effect on the whole list by which runs are specified: the names they give are delivered once |
| SyncSpec.CompareStep | src/libvxmdsync/proc.c:105-124 | the lists defined over n + 1 users are those over n users after one step of the loop: deleting from the request list as users are met is the same as claiming UUIDs |
| SyncMeaning.StrangerStays | src/libvxmdsync/proc.c:77-84 | a user with another group id, and no primary group name or another one, is after any run the user it was before, and so is a NIS entry: said of gid and names, whatever the list and the parts |
| SyncMeaning.StrangerAlwaysStays | src/libvxmdsync/proc.c:77-84 | and so it stays over every history |
| SyncMeaning.ValidDbIff | src/libvxmdsync/proc.c:77-79 | the databases that results on runs are about, by fields: login names differ, and so do the UUIDs of users in the group |
| SyncMeaning.MemberFate | src/libvxmdsync/proc.c:77-132 | what a whole run makes of a user with the group id or name, field by field: listed, its timer is cleared and its tag is the listed one unless that is the text of its UUID; unlisted, it goes at once without a deferral, and with one its timer starts today, runs on before the 32-bit day of expiry, and ends it from that day on |
| SyncMeaning.DatabaseOrder | src/libvxmdsync/proc.c:125-132 | within each list users stand in the order of the database |
| SyncTheorems.SizesAddUp | src/libvxmdsync/proc.c:83-124 | the member count is the sum of kept, start, wait and delete |
| SyncTheorems.ListsPartition | src/libvxmdsync/proc.c:83-132 | a name is in exactly one of the four lists if it is a member's and in none otherwise, and timers are stopped only for kept users that have one |
| SyncTheorems.RequestsLoseKept | src/libvxmdsync/proc.c:83-124 | the request list has lost exactly the UUIDs of the users that were found in it |
| SyncOutcome.OpsIff | src/libvxmdsync/proc.c:304-405 | the operations of a run that name a user are exactly those its own record, the list and the day call for |
| SyncOutcome.CutOutcome | src/libvxmdsync/proc.c:304-405 | any part of the operations leaves a user with exactly those changes it is due whose requests are in it |
| SyncRun.CutValid | src/libvxmdsync/proc.c:168-405 | login names and member UUIDs stay distinct, whatever parts of a run are skipped and wherever it is cut off |
| SyncTheorems.RemainingAdditions | src/libvxmdsync/proc.c:209-255 | after n additions a new comparison and fix-up allots precisely the remaining entries, under the names the first run had chosen |
| SyncMeaning.AdditionsFirst | src/clutils/usersync.c:173-246 | by the time a run that adds has changed or removed anybody, every listed UUID belongs to a user |
| SyncTheorems.Resumption | src/libvxmdsync/proc.c:168-405 | whatever parts of a run are carried out and wherever it is cut off, unless it deletes without having added, it is repeated in full on the same day with the same list and ends with the very database of the uninterrupted run |
| SyncConvergence.Convergence | src/libvxmdsync/proc.c:51-405 | after a run of all that it has to do, every listed UUID belongs to a member, and every other member has a running, unexpired timer |
| SyncConvergence.ConvergenceAtOnce | src/libvxmdsync/proc.c:108-110 | without a deferral the members' UUIDs are exactly the listed ones |
| SyncConvergence.SecondRunIsIdle | src/libvxmdsync/proc.c:51-145 | a second run on any later day with the same list adds nobody, starts and stops no timer, and deletes exactly the unlisted members whose timers have expired by then: nobody if and only if there are none, and so on the same day or without a deferral |
| SyncConvergence.Idempotent | src/libvxmdsync/proc.c:51-405 | on the same day a second complete run changes nothing at all |
| SyncConvergence.CompletesIff | src/libvxmdsync/proc.c:209-255 | a run, or its first k changes, is completed if and only if the range has an unused id for every addition |
| SyncConvergence.EarlyExpiryIffWrap | src/libvxmdsync/proc.c:101-105 | a timer can expire before its time if and only if timer plus deferral leaves 32 bits |
| SyncConvergence.NamesAreFresh | src/libvxmdsync/fixup.c:36-49 | new entries get names of at most eight characters, unlike every delivered name and each other, and nothing else about them changes |
| SyncConvergence.GivesUpLate | src/libvxmdsync/fixup.c:36-81 | the run gives up for want of a name only when existing and new users exceed 10000 |
| SyncConvergence.OrderIrrelevant | src/libvxmdsync/read_file.c:33-59 | two lists collect into the same map if and only if the last entry for every UUID is the same |
| SyncConvergence.CollectValid | src/libvxmdsync/read_file.c:56-58 | entries with proposed names collect into a list keyed by UUID |
| SyncHistory.RunIsStep | src/libvxmdsync/proc.c:51-405 | every outcome of a run, on a writable or read-only database, is a step of a history |
| SyncHistory.AlwaysValid | src/libvxmdsync/proc.c:51-405 | over any sequence of runs, parts skipped and runs cut off or not, login names and member UUIDs stay distinct |
| SyncHistory.Fate | src/libvxmdsync/proc.c:51-405 | what a run does to the user of a given name: exactly the changes due to it whose requests the run carries out, and all that are due if it is whole |
| SyncHistory.TimerStoppedIff | src/libvxmdsync/proc.c:454-474 | the timer of a listed member stops if and only if the run comes to the request to stop it |
| SyncHistory.DoneByThen | src/libvxmdsync/proc.c:304-405 | the requests that a run cut off after k changes came to are its first k changes less the additions |
| SyncHistory.TimerMeaning | src/libvxmdsync/proc.c:433-474 | a running timer that started clear has stood since the day of a run that missed the member, and every later run missed it too or did not come to the request to stop it |
| SyncHistory.NoEarlyDeletion | src/libvxmdsync/proc.c:89-110 | with a deferral a user that disappears was missed by that run and by one at least the deferral before, its timer ran all the time between, and every run between missed it or did not come to the request to stop the timer |
| SyncHistory.NoEarlyDeletionWhenComplete | src/libvxmdsync/proc.c:89-110 | where every run before is whole it was missed by all of them |
| SyncHistory.LostStopDeletes | src/libvxmdsync/proc.c:304-319 | the exception, exactly: a member that a run lists, and that a later whole run misses once the old timer has expired, is deleted if and only if the first run did not come to the stop request |
| SyncHistory.TimerExactly | src/libvxmdsync/proc.c:433-474 | in every history the timer of a member is what the runs, by what they listed and carried out, have made of it |
| SyncHistory.RemovedExactly | src/libvxmdsync/proc.c:93-110 | in every history a member goes in a run if and only if the run misses it, its timer has run for the deferral, and the run comes to the request to remove it |
| SyncHistory.TimerIsAbsence | src/libvxmdsync/proc.c:89-110 | with whole runs the timer is always the day on which the present unbroken absence began |
| SyncHistory.RemovedIff | src/libvxmdsync/proc.c:93-110 | with whole runs a member is removed if and only if it is absent and has been so for the whole deferral |
| SyncHistory.GoneAfterDeferral | src/libvxmdsync/proc.c:93-110 | a member absent throughout lives exactly as long as no run comes the deferral or more after its timer started |
| SyncTags.TagRightIff | src/libvxmdsync/proc.c:116-122 | a listed member ends an uninterrupted run with the listed group tag if and only if that tag differs from the user's UUID, with which line 117 compares it, and modifications are carried out, or it was right before |
| SyncExamples.TagStaysWrong | src/libvxmdsync/proc.c:117 | a database of one user whose wrong tag a complete run leaves as it is |
| SyncTags.TagsWaitForTimers | src/clutils/usersync.c:199-223 | in the tool a listed member ends an uninterrupted run with the listed group tag if and only if that tag differs from the user's UUID, modifications are agreed to and some user's timer changes, or it was right before |
| SyncExamples.TagWaits | src/clutils/usersync.c:199-208 | a database of one user whose wrong tag the tool leaves as it is, everything agreed to, whatever the listed tag |
| SyncExamples.LostStop | src/libvxmdsync/proc.c:304-319 | a history of three runs in which a member is deleted two days after it was listed, with a deferral of three |
| SyncExamples.ResumableIff | src/clutils/usersync.c:174-245 | runs of some selection of parts can be resumed in every case if and only if they do not delete without adding |
| SyncExamples.IdIsReused | src/clutils/usersync.c:174-245 | a database of one user where such a run frees an id, which the rerun gives to a new user |
| LoginNames.FormatName | src/libvxmdsync/fixup.c:66-81 | a numbered name of at most eight characters, and the abort for indexes from 10000 on |
| LoginNames.CandidateShape | src/libvxmdsync/fixup.c:66-81 | a variant is the number in decimal behind as much of the name as eight characters leave room for |
| LoginNames.FindFree | src/libvxmdsync/fixup.c:40-44 | the search loop finds the specified first free variant |
| LoginNames.PickedIsFirst | src/libvxmdsync/fixup.c:40-44 | the name chosen is the first variant that is not taken, and there is none if and only if all 10000 are |
| LoginNames.CandidatesDistinct | src/libvxmdsync/fixup.c:66-81 | the 10000 variants of a proposed name differ from each other |
| LoginNames.AbortNeedsManyNames | src/libvxmdsync/fixup.c:66-81 | the search gives up only if at least 10000 names are taken |
| LoginNames.Transform7 | src/libvxutil/util.c:818-863 | the loop keeps letters, substitutes what fits and drops the rest |
| LoginNames.TransformLetters | src/libvxutil/util.c:818-863 | its result is letters only, and fits the buffer |
| LoginNames.PlainTransform | src/libvxutil/util.c:818-863 | of plain ASCII text it is the first letters that fit |
| LoginNames.TransformRow | src/libvxutil/util.c:831-856 | a sequence outside ASCII becomes the replacement of the first row it begins with, and ends the text where that does not fit; without a row its first byte is dropped |
| LoginNames.LettersOneByOne | src/libvxutil/util.c:828 | which characters are kept |
| LoginNames.SurnamePointer | src/libvxutil/util.c:419-441 | the word of the surname: the first one in upper case wherever there is one, or else the second, or else the first |
| LoginNames.FirstUpperWord | src/libvxutil/util.c:403-434 | the first upper-case letter that begins a word, with none before it, begins the surname's word |
| LoginNames.SecondWord | src/libvxutil/util.c:435-439 | without upper-case letters it is the second word, behind a blank |
| LoginNames.OnlyWord | src/libvxutil/util.c:440 | and without a blank the first |
| LoginNames.WhiteSpaceIs | src/libvxutil/util.c:423-439 | which characters part words |
| LoginNames.SurnameExamples | src/libvxutil/util.c:414-417 | the three documented examples |
| LoginNames.ProposeLname | src/libvxutil/util.c:87-109 | the name has the form on which the distinctness of variants rests, and its letters are those of the first name, or its first letter and up to six of the surname's word |
| LoginNames.LetterNames | src/libvxutil/util.c:87-109 | for names of letters only: the first letter of the first name and up to six of the surname, or up to seven of the first name alone |
| LoginNames.LowerIsByAlphabet | src/libvxutil/util.c:109 | the k-th capital becomes the k-th small letter, and nothing else changes |
| ShadowDriver.IdRange.FreeUid | src/drivers/shadow/aux.c:22-67 | the id chosen is in range and unused, and there is none if and only if every id in range is used |
| ShadowDriver.LowestId | src/drivers/shadow/aux.c:22-67 | it is the lowest unused id from the minimum to the maximum, and for system users from 1 to below the minimum |
| ShadowDriver.ShadowDb.AutomaticUid | src/drivers/shadow/aux.c:22-67 | the program's search finds that id, although its highest id never moves |
| ShadowDriver.ShadowDb.GetPwnam | src/drivers/shadow/shadow.c:282-293 | the first user of that name |
| ShadowDriver.ShadowDb.UserAdd | src/drivers/shadow/shadow.c:152-200 | the error cases in order, and on success the old users followed by one with a free id, no group name and a clear timer |
| ShadowDriver.AddFails | src/drivers/shadow/shadow.c:161-168 | each error under its condition: a taken name, a read-only database, no id left |
| ShadowDriver.AddedFields | src/drivers/shadow/shadow.c:178-194 | which fields are stored as requested and which are not |
| ShadowDriver.ShadowDb.UserMod | src/drivers/shadow/shadow.c:202-247 | only the first user of that name changes, and only in the fields asked for |
| Vxdb.ModifiedFields | src/drivers/shadow/shadow.c:223-240 | field by field: what is asked for is set, and everything else stays |
| ShadowDriver.ShadowDb.UserDel | src/drivers/shadow/shadow.c:249-267 | only the first user of that name goes |
| ShadowDriver.Traverser.Walk | src/drivers/shadow/shadow.c:295-313 | every user but the NIS entries, once and in order |
| Levenshtein.Levd | src/clutils/ckuuid.c:181-210 | the loops over the flattened matrix compute the recursive distance, for all sizes whose matrix can be indexed |
| Levenshtein.DistanceIsMinimum | src/clutils/ckuuid.c:181-210 | a number is the distance if and only if it is the least cost of a script of insertions, deletions and substitutions |
| Levenshtein.DistanceIsFewestEdits | src/clutils/ckuuid.c:181-210 | equivalently, the fewest single edits that lead from one string to the other through any strings whatever |
| Levenshtein.ZeroIffEqual | src/clutils/ckuuid.c:181-210 | zero exactly for equal strings |
| Levenshtein.Symmetric | src/clutils/ckuuid.c:181-210 | symmetry |
| Levenshtein.Triangle | src/clutils/ckuuid.c:181-210 | the triangle inequality |
| Levenshtein.Bounds | src/clutils/ckuuid.c:181-210 | between the difference of the lengths and the longer length |
| Levenshtein.LevdP | src/clutils/ckuuid.c:221-286 | the pair holds the two distances, on the compared parts of the UUIDs, weighed in 32 bits |
| Levenshtein.WeightOfChanges | src/clutils/ckuuid.c:271-285 | the distance of the names counts with its square, and four times the sum where both distances are not zero |
| Levenshtein.DatePart | src/clutils/ckuuid.c:232-234 | of a VX3A identifier the six characters behind the tag are compared |
| Levenshtein.TaggedPart | src/clutils/ckuuid.c:235-238 | of another tagged one all behind the tag |
| Levenshtein.UntaggedPart | src/clutils/ckuuid.c:239-242 | and otherwise the whole |
| Levenshtein.CombinedZeroIffSame | src/clutils/ckuuid.c:221-286 | below 32768 characters nothing wraps, and the combined distance is zero if and only if names and compared parts agree |
| WordCompare.SplitIsUnique | src/libvxmdfmt/extra.c:58-118 | the division into maximal runs of one class is the only one |
| WordCompare.CompareWbc | src/libvxmdfmt/extra.c:58-118 | the walk over both strings compares their lists of runs, class first |
| Prelude.StrCmpFirstDifference | src/libvxmdfmt/extra.c:99 | the first different character decides between two texts |
| Prelude.StrCmpPrefix | src/libvxmdfmt/extra.c:99 | and a proper prefix comes first |
| WordCompare.KindsInOrder | src/libvxmdfmt/extra.c:24-35 | the end of a key comes before a digit, a digit before a letter, and a letter before any other character |
| WordCompare.RunsByCharacter | src/libvxmdfmt/extra.c:98-100 | leading runs of letters, or of other characters, are ordered by their first different character |
| WordCompare.ShorterRunFirst | src/libvxmdfmt/extra.c:98-100 | and a run that another one continues comes first |
| WordCompare.DigitsByValue | src/libvxmdfmt/extra.c:94-97 | leading runs of digits are ordered by value, below 2^31 |
| WordCompare.EqualRunsGoOn | src/libvxmdfmt/extra.c:105-114 | equal runs leave the decision to what follows |
| WordCompare.ExamplesOfNumbers | src/libvxmdfmt/extra.c:48-50 | the documented examples with numbers |
| WordCompare.ExamplesOfLetters | src/libvxmdfmt/extra.c:49-52 | with letters |
| WordCompare.ExamplesOfKinds | src/libvxmdfmt/extra.c:51-53 | and between kinds |
| Decimal.PlaceValue | src/libvxmdfmt/extra.c:95 | a numeral counts by decimal places |
| WordCompare.KeyOrderIsTotalPreorder | src/libvxmdfmt/extra.c:58-118 | on keys whose digit runs are below 2^31 the sign is reflexive, antisymmetric, transitive and total, and zero exactly for runs equal up to leading zeros |
| WordCompare.PlacedRightIffTame | src/libvxmdfmt/extra.c:94-97 | a key is ordered as meant against all such keys if and only if its own digit runs are below 2^31 |
| WordCompare.LargeNumbersCycle | src/libvxmdfmt/extra.c:94-97 | beyond that the comparison is not transitive: a family of cycles of three |
| Feistel.EncryptInPlace | src/libvxutil/blowfish.c:500-520 | alternating rounds with subkeys mixed in ahead compute the network as it is defined |
| BcryptReference.EncryptionInRounds | src/libvxutil/blowfish.c:500-520 | on 32-bit words: sixteen textbook rounds, the last without its exchange, and the last two subkeys |
| BcryptReference.XorIs | src/libvxutil/blowfish.c:461-520 | words are mixed by exclusive or |
| Feistel.NetworkUndone | src/libvxutil/blowfish.c:500-520 | over any round function the network is undone by itself with subkeys reversed |
| Blowfish.RoundFormsAgree | src/libvxutil/blowfish.c:457-495 | scaled and byte-offset table access give the same round function on every input |
| BcryptReference.RoundFunction | src/libvxutil/blowfish.c:457-473 | the round function mixes a word of the first box for the most significant byte, and so on to the last box for the least |
| BcryptReference.BoxWords | src/libvxutil/blowfish.c:457-473 | the boxes lie end to end, 256 words each |
| BcryptReference.MixIs | src/libvxutil/blowfish.c:466-472 | two words are added, the third is mixed in by exclusive or, the fourth is added |
| Blowfish.ReversedSubkeysDecrypt | src/libvxutil/blowfish.c:500-520 | decryption is encryption with subkeys reversed, for arbitrary tables |
| Blowfish.EncryptionIsBijective | src/libvxutil/blowfish.c:500-520 | block encryption is one-to-one and onto |
| Radix64.JoinUndoesSplit | src/libvxutil/blowfish.c:387-441 | bytes are recovered from their six-bit digits, for every length |
| Radix64.SameBits | src/libvxutil/blowfish.c:387-441 | three bytes and their four digits are the same 24 bits |
| Radix64.SplitUndoesJoin | src/libvxutil/blowfish.c:387-441 | digits are recovered from their bytes, but for the spare bits of the last one |
| BcryptBase64.DecodeInto | src/libvxutil/blowfish.c:387-409 | the loop fills the buffer with the decoded bytes, or fails exactly on a character outside the alphabet |
| BcryptBase64.EncodeInto | src/libvxutil/blowfish.c:411-441 | the loop writes the text and touches nothing around it |
| BcryptBase64.DecodeUndoesEncode | src/libvxutil/blowfish.c:387-441 | decoding undoes encoding for every size |
| BcryptBase64.EncodeUndoesDecode | src/libvxutil/blowfish.c:387-441 | encoding undoes decoding but for the spare bits of the last character |
| BcryptBase64.ItoaIsOfTable | src/libvxutil/blowfish.c:366-376 | the alphabet is the one of the table |
| BcryptHash.Swap | src/libvxutil/blowfish.c:443-455 | every word counted is byte-swapped in place, and no other |
| BcryptHash.SwapThenStore | src/libvxutil/blowfish.c:774-775 | swapping words before storing them puts their bytes in big-endian order |
| BcryptKey.SetKey | src/libvxutil/blowfish.c:545-644 | both outputs of the loop, bug and safety measure included |
| BcryptKey.Measure | src/libvxutil/blowfish.c:630-643 | the branch-free end: bit 16 exactly if all words agree, one has a sign and the flags ask for safety |
| BcryptKey.ExpandedKeyIsCyclic | src/libvxutil/blowfish.c:586-615 | without the bug the subkeys are the password and its NUL repeated, most significant byte first |
| BcryptReference.CyclicBytes | src/libvxutil/blowfish.c:606-609 | the password, one NUL, and from the beginning again |
| BcryptReference.ExpandedWords | src/libvxutil/blowfish.c:592-613 | both expansions as packed bytes: with the bug a byte from 0x80 on leaves 0xFF in the places before it |
| BcryptReference.InitialWords | src/libvxutil/blowfish.c:613-643 | the initial subkeys are mixed with the expansion, and bit 16 of the first one flips exactly if safety is asked for, a byte from 0x80 on stands behind another one, and all in front of such bytes are 0xFF |
| BcryptKey.CollidesIff | src/libvxutil/blowfish.c:614-643 | the measure acts if and only if some word has a byte from 0x80 on behind its first, and all bytes in front of such bytes are 0xFF |
| BcryptKey.AgreeIffMasked | src/libvxutil/blowfish.c:586-615 | correct and buggy word agree exactly under that condition |
| BcryptKey.DeviationIsUnreachable | src/libvxutil/blowfish.c:630-643 | a state the measure has touched is reached from no password without it, correct or buggy |
| BcryptKey.MeasureIsComplete | src/libvxutil/blowfish.c:614-643 | wherever a password expands correctly to what the bug makes of another one to which it matters, the measure acts |
| BcryptSchedule.Context.ExpandSalted | src/libvxutil/blowfish.c:701-727 | the first two loops, unrolled and indexed differently, perform one salted state expansion |
| BcryptSchedule.Context.Body | src/libvxutil/blowfish.c:522-543 | and so does the body, without a salt |
| BcryptReference.ExpandedInMemory | src/libvxutil/blowfish.c:522-543 | on 1042 words of memory: every block is the encryption, under the words as they are by then, of the block before it mixed with alternating halves of the salt, and it is written over the words it stands for |
| BcryptSchedule.Context.TakeTurn | src/libvxutil/blowfish.c:729-753 | the flag-controlled inner loop expands with the key and then with the salt as the key |
| BcryptSchedule.Context.Setup | src/libvxutil/blowfish.c:701-754 | the whole schedule is that of the bcrypt paper, for any count |
| BcryptReference.ScheduleInTurns | src/libvxutil/blowfish.c:701-754 | a salted expansion, and then turns that mix in the key and expand, mix in the four words of the salt over and over and expand again |
| BcryptHash.ComputeDigest | src/libvxutil/blowfish.c:693-775 | from key, flags, count and decoded salt to the 23 bytes that are kept |
| BcryptHash.Crypt | src/libvxutil/blowfish.c:646-777 | the two errors in order, the sixty characters of the hash and a NUL; a rejected setting leaves the output alone |
| BcryptReference.AcceptedIff | src/libvxutil/blowfish.c:675-692 | a setting is accepted if and only if it is "$2a$", "$2x$" or "$2y$", two digits up to 31, a "$" and 22 characters of the alphabet, and two to the power of the digits reaches the minimum |
| BcryptReference.PowerIsShift | src/libvxutil/blowfish.c:688 | the number of turns is one shifted by the cost |
| BcryptReference.PowerAdds | src/libvxutil/blowfish.c:688 | that is two to its power |
| BcryptReference.FlagBitsOf | src/libvxutil/blowfish.c:580-584 | the flag of the bug is set exactly for "$2x$", and that of the safety measure for "$2a$" |
| BcryptReference.ScheduledTables | src/libvxutil/blowfish.c:688-754 | the tables a setting leads to, from its characters: how many turns its digits mean, the bug for "x", the safety measure for "a", and the salt in big-endian words |
| BcryptReference.MagicIsText | src/libvxutil/blowfish.c:755-757 | what is encrypted is the text "OrpheanBeholderScryDoubt" |
| BcryptReference.HashInBlocks | src/libvxutil/blowfish.c:755-776 | the hash, from those tables: eight bytes of the text at a time are encrypted 64 times, and 23 of the 24 bytes are encoded behind the setting and its salt |
| BcryptHash.HashShape | src/libvxutil/blowfish.c:768-776 | prefix and cost are copied, and the salt is written in canonical form |
| BcryptHash.HashIsSetting | src/libvxutil/blowfish.c:670-696 | a hash is an accepted setting for the same salt, cost and flags |
| BcryptHash.HashVerifies | src/libvxutil/blowfish.c:646-777 | hashing again with the hash as the setting gives the hash |
| BcryptHash.VerifiesIff | src/libvxutil/blowfish.c:646-777 | another password gives that hash if and only if its digest is the same |
| BcryptHash.GenerateSalt | src/libvxutil/blowfish.c:878-904 | the two errors, and the setting written |
| BcryptReference.GeneratesIff | src/libvxutil/blowfish.c:881-888 | what the generator accepts, by characters |
| BcryptHash.SettingIsAccepted | src/libvxutil/blowfish.c:878-904 | a generated setting is accepted and stands for the bytes and the count it was made from |
| PrintSource.Image.ChunkNext | src/lpacct/image.c:69-104 | for every pattern of short reads a chunk is exactly the next bytes of the page; it fails only on a read error or a short pipe, and then counts nothing as read |
| PrintSource.ComplementBytes | src/lpacct/image.c:43-60 | the complement of a word has the complements of its bytes |
| PrintSource.Image.Invert | src/lpacct/image.c:43-60 | every byte of the buffer is inverted once, whatever its size |
| PrintAccounting.CountCmyk | src/lpacct/drop.c:100-131 | the pixel loop of CMYK against the sum over pixels |
| PrintAccounting.CountCmypk | src/lpacct/drop.c:140-178 | the pixel loop of CMY+K against the sum over pixels |
| PrintAccounting.CountCmy | src/lpacct/drop.c:187-214 | counting down from full colour gives the sum over pixels, and never goes below zero |
| PrintAccounting.TotalConcat | src/lpacct/drop.c:100-213 | costs of whole pixels add up over pieces |
| PrintAccounting.OnePixelTotal | src/lpacct/drop.c:100-213 | one pixel costs its own ink, and costs add colour by colour |
| PrintAccounting.Analyze | src/lpacct/drop.c:100-214 | for every buffer size divisible by three and every pattern of reads the cost is the sum over the pixels read, the whole page when no read fails |
| PrintAccounting.PixelBounds | src/lpacct/drop.c:100-178 | a pixel costs at most a full drop a colour, and a gray one only its darkness in black |
| PrintAccounting.CmykIsShare | src/lpacct/drop.c:100-131 | black is the least of the three samples, and each colour's ink is its exact share of 255 of what black leaves, rounded down |
| PrintAccounting.FullColour | src/lpacct/drop.c:111-119 | a colour at full strength costs a full drop |
| PrintAccounting.CmypkIsEither | src/lpacct/drop.c:158-171 | black alone, the mean of the samples, where the squares of their differences come to at most 24, and otherwise the three colours |
| PrintAccounting.DistanceRoundedUp | src/lpacct/drop.c:278-295 | the distance is a third of those squares rounded up |
| PrintAccounting.InkOfImage | src/lpacct/drop.c:100-213 | ink is what the image's samples lack of 255 |
| PrintAccounting.TotalBound | src/lpacct/drop.c:100-214 | sums stay below 255 a pixel and colour, and with their total inside 64 bits for up to 2^54 pixels |
| PrintAccounting.Account.AddPages | src/lpacct/image.c:121-130 | the account is the sum of the pages, and its total is the sum of its colours |
| PrintAccounting.Account.Add | src/lpacct/image.c:158-166 | adding a page keeps the total equal to the sum of the colours |
| PrintAccounting.OnePageMore | src/lpacct/image.c:158-166 | the account of one page more, and its total, colour by colour |
| PrintGray.CountGray | src/lpacct/drop.c:228-256 | three 32-bit sums and a 32-bit product give the weighted sum modulo 2^32 |
| PrintGray.AllExactIff | src/lpacct/drop.c:230-234 | no chunk of n pixels is miscounted if and only if n is at most 65793, where the comment in the source promises 16843009 |
| PrintGray.ChunkRoundsUp | src/lpacct/drop.c:228-256 | a chunk's ink is its exact weighted darkness rounded up |
| PrintGray.OnePixel | src/lpacct/drop.c:228-256 | one pixel: 78, 151 and 27 parts of 256, and darkness is the complement |
| PrintGray.WeightedConcat | src/lpacct/drop.c:228-256 | weights add up over pieces |
| PrintGray.GrayAgainstPixels | src/lpacct/drop.c:228-256 | over a whole image the total is at most the pixel-by-pixel sum and misses it by less than the number of pixels |
| PrintGray.AnalyzePpm | src/lpacct/drop.c:222-257 | the loop delivers that total, never subtracting more than it has |
| PrintGray.AnalyzePgm | src/lpacct/drop.c:258-265 | one-byte pixels: the sum of their darkness |
| PrintGray.PgmOnePixel | src/lpacct/drop.c:258-265 | one pixel's darkness is what its sample lacks of 255 |
| PrintGray.PgmSplit | src/lpacct/drop.c:258-265 | and darkness adds up over pieces |
| MultiDriver.Traversal.Walk | src/drivers/mmd.c:285-317 | one step of the traversal as it is written, the use of a freed inner traversal being an outcome of its own |
| MultiDriver.TraversalIsUnionIff | src/drivers/mmd.c:269-317 | the traversal ends well if and only if no read module but the last can be traversed; then it delivers the write module's users and each read module's, and otherwise an initial part |
| MultiDriver.SecondModuleIsLost | src/drivers/mmd.c:301-314 | two read modules of one user each: the second user is never delivered |
| MultiDriver.GetPwnam | src/drivers/mmd.c:244-267 | the first user of that name over the modules in order |
| MultiDriver.GetPwuid | src/drivers/mmd.c:219-242 | the first user of that id over the modules in order |
| MultiDriver.FirstOfUid | src/drivers/mmd.c:219-242 | it is the first, and there is none exactly if nobody has the id |
| MultiDriver.ModuleByModule | src/drivers/mmd.c:219-317 | users and groups of a list of modules are those of its parts in order |
| MultiDriver.OneModule | src/drivers/mmd.c:219-317 | those of one module |
| MultiDriver.WriteModuleFirst | src/drivers/mmd.c:219-267 | and the write module's come first |
| MultiDriver.AutoUid | src/drivers/mmd.c:472-526 | the scans over the traversal compute the specified choice, or break with the traversal |
| MultiDriver.ChooseIsRight | src/drivers/mmd.c:472-526 | where the range does not cross 2^31 the id is in range and unused in the whole sequence, and there is none only if all are used |
| MultiDriver.RightChoiceMeans | src/drivers/mmd.c:472-526 | what a right choice is, said of the ids that users have |
| MultiDriver.ChoosesSuccessor | src/drivers/mmd.c:480-502 | below 2^31 the successor of the highest id in the range is chosen while there is one |
| MultiDriver.AlwaysRightIff | src/drivers/mmd.c:477-502 | and that holds for every database only there, because the highest id is kept in an int |
| MultiDriver.MisledChoice | src/drivers/mmd.c:477-502 | four users that mislead it in any other range |
| MultiDriver.SgmapMerge | src/drivers/mmd.c:711-734 | a list is appended, or only counted |
| MultiDriver.SgmapGet | src/drivers/mmd.c:736-773 | all modules' groups in order, and the same count with and without a list |
| TextFields.StrtolOfPrint | src/drivers/shadow/fsshadow.c:48-58 | signed numbers are read back as they were printed |
| TextFields.UintOfPrint | src/drivers/shadow/fspasswd.c:59-60 | and so are ids |
| TextFields.NumeralExamples | src/drivers/shadow/fspasswd.c:58-59 | hexadecimal, octal and decimal numerals |
| TextFields.SignExamples | src/drivers/shadow/fsshadow.c:51-59 | a sign in front, and white space before it |
| TextFields.EndExamples | src/drivers/shadow/fsshadow.c:51-59 | where a number ends |
| TextFields.DigitBehind | src/drivers/shadow/fspasswd.c:58-59 | one digit more, in any base |
| TextFields.OutOfRange | src/drivers/shadow/fsshadow.c:51-59 | a long is clamped, and an unsigned int taken modulo 2^32 or as its largest value |
| TextFields.SignInFront | src/drivers/shadow/fsshadow.c:71-78 | a negative number is printed with a minus sign |
| TextFields.LineBehind | src/drivers/shadow/fspasswd.c:39 | a line ends at its newline |
| TextFields.LastLine | src/drivers/shadow/fspasswd.c:39 | and the last one may lack it |
| TextFields.LineEnds | src/drivers/shadow/fspasswd.c:45 | carriage returns and newlines, and nothing else, go from its end |
| TextFields.SplitFirst | src/drivers/shadow/fspasswd.c:47 | a field ends at its colon |
| TextFields.SplitLast | src/drivers/shadow/fspasswd.c:47 | and the last one takes whatever is left |
| FlatFiles.ReadPasswd | src/drivers/shadow/fspasswd.c:30-87 | the reader loop against the parser of a line |
| FlatFiles.ReadShadow | src/drivers/shadow/fsshadow.c:27-64 | the reader loop fills the listed users in place, passing over orphans; a line too short for its fields is an outcome of its own |
| FlatFiles.ReadFromPasswd | src/drivers/shadow/fspasswd.c:56-75 | a user read from passwd alone: its fields in order, no password, and the default ages |
| FlatFiles.FieldsNeeded | src/drivers/shadow/fspasswd.c:47-51 | how many fields a line needs in each of the three files |
| FlatFiles.LinesPassedOver | src/drivers/shadow/fspasswd.c:42-43 | comments and NIS entries are passed over |
| FlatFiles.WriteUsers | src/drivers/shadow/dbops.c:141-173 | the writing loop produces both texts |
| FlatFiles.LinesOfUser | src/drivers/shadow/fsshadow.c:66-83 | both lines, field by field: "x" in passwd, "!" in shadow for a user without a password, and nothing for an expiry or inactivity that is off |
| FlatFiles.WritableIff | src/drivers/shadow/fspasswd.c:89-98 | which users the round trips are about, by characters: no separators in fields, no line ends in tails, ages of 64 bits |
| FlatFiles.PasswdRoundTrip | src/drivers/shadow/fspasswd.c:30-98 | a written passwd list is read back, shell and tail as one text |
| FlatFiles.UsersRoundTrip | src/drivers/shadow/fsshadow.c:27-83 | both files together restore every writable user of distinct name |
| FlatFiles.RestoredIff | src/drivers/shadow/fspasswd.c:95-96 | nothing of a user is lost if and only if it has a password and no reserved tail, which is written without its colon |
| FlatFiles.SecondWriteIff | src/drivers/shadow/fspasswd.c:89-98 | a restored user is written as before if and only if the tail holds no colon |
| FlatFiles.TailIsLost | src/drivers/shadow/fspasswd.c:95-96 | a user whose tail comes back as the end of its shell |
| FlatFiles.WriteIsStable | src/drivers/shadow/fsshadow.c:66-83 | without such tails both files stay as they are from then on |
| FlatFiles.OptionalOfUnless | src/drivers/shadow/fsshadow.c:74-79 | the sentinels for expiry and inactivity survive as empty fields |
| FlatFiles.ReadGroups | src/drivers/shadow/fsgroup.c:21-56 | the reader loop against the parser of a line |
| FlatFiles.FlushGroups | src/drivers/shadow/fsgroup.c:58-78 | the writing loop produces the text |
| FlatFiles.LineOfGroup | src/drivers/shadow/fsgroup.c:69-72 | a group's line, field by field |
| FlatFiles.GroupsRoundTrip | src/drivers/shadow/fsgroup.c:21-78 | every group comes back, member lists with colons included |
| GroupBuild.Create | src/clutils/groupbld.c:250-275 | on success the group exists and no other was made; on failure the set of groups is unchanged |
| GroupBuild.Move | src/clutils/groupbld.c:277-319 | on success the user's list is the rebuilt one; wherever an operation fails, other lists and unprefixed memberships are untouched |
| GroupBuild.Loop | src/clutils/groupbld.c:171-212 | success means every selected user is rebuilt and exactly their groups are made; failure stops at one user, whose group may be made and whose list may be half-way; without failing operations and repeated groups it succeeds |
| GroupBuild.MovedExactly | src/clutils/groupbld.c:277-319 | a rebuilt list holds the wanted group, no other prefixed one, and the unprefixed ones in order |
| GroupBuild.RebuiltMemberships | src/clutils/groupbld.c:171-319 | after a whole run a selected user is in the group of its tag, which exists, and in no other prefixed one; users not selected keep their lists |
| GroupBuild.TaggedMemberships | src/clutils/groupbld.c:188-204 | the same of a user's tag and group id: who is selected, which group is named for the tag, and which other groups are left |
| GroupBuild.UnprefixedOne | src/clutils/groupbld.c:277-319 | the memberships that are kept are those without the prefix |
| GroupBuild.NewGroupsAreUsed | src/clutils/groupbld.c:171-275 | a prefixed group is new after a whole run if and only if it did not exist and some selected user is in it |
| GroupBuild.StrangersKept | src/clutils/groupbld.c:171-212 | lists of users outside the database are kept |
| GroupBuild.SecondRunIdle | src/clutils/groupbld.c:171-319 | a second run makes no change, to memberships or to the set of groups |
| Quoting.QuoteBase64 | src/libvxutil/util.c:327-357 | the encoder fills a buffer of the computed size with the text and a NUL |
| Quoting.LetterIsOfTable | src/libvxutil/util.c:329-330 | the alphabet is the one of the standard |
| Quoting.PaddingIs | src/libvxutil/util.c:340-352 | two "=" behind a single last byte, and one behind two |
| Quoting.DecodesToInput | src/libvxutil/util.c:327-357 | a decoder by section 4 of RFC 4648 gives the input back, for every byte string |
| Quoting.QuoteText | src/libvxutil/util.c:163-177 | the segment loop puts a backslash before every quote and backslash |
| Quoting.EscapedOneByOne | src/libvxutil/util.c:163-174 | which characters get a backslash between single quotes and which between double ones |
| Quoting.EscapedConcat | src/libvxutil/util.c:163-174 | and texts are quoted character by character |
| Quoting.QuotingIsSafe | src/libvxutil/util.c:163-177 | unescaping undoes the quoting, and the text has no bare quote and no dangling backslash |
| Quoting.QuotingIsInjective | src/libvxutil/util.c:163-177 | different texts stay different |
| Quoting.CountSize | src/libvxutil/util.c:366-401 | the size loop |
| Quoting.SizeIsExact | src/libvxutil/util.c:366-401 | the computed size is exactly that of the quoted text |

## Left out

- LDAP, MySQL and NSS drivers, PAM, CUPS, libxml, iconv, OpenSSL digests: calls into code outside the repository.
- Command-line tools, CGI programs, scripts, option parsing, configuration files, report callbacks: user interface and I/O.
- Prompts of the synchronisation tool: which parts are carried out is an argument of a run; a part that is declined does not keep the next one from running.
- Passwords, home directories, hooks and log lines of additions and deletions: only the account is modelled.
- mdsync_add: reading a user back after it was added always succeeds in the modelled database, so the failure branch behind it is not reached.
- SyncEngine.Workspace.Compare: report callbacks and the count of users are left out; a repeated login name ends the run where the source aborts the process.
- LoginNames.ProposeLname: the substitution table is arbitrary, and the buffer has room for the name.
- ShadowDriver.ShadowDb.UserMod: a change of the login name to one that exists is possible in the source and here; the results on runs need none.
- Groups of the shadow and the multi-module driver: adding, changing, traversing and choosing ids repeat the user side; the test for an existing group in the shadow driver is inverted and not modelled.
- The vxshadow file: read and written through libxml. UUID, tag and timer are fields of a user and do not pass through the flat files.
- MultiDriver.Traversal.Walk: what a freed inner traversal delivers is not modelled; its use is the outcome `Undefined`. Errors of a module's own traversal are left out.
- MultiDriver.SgmapGet: running out of memory while merging is left out.
- Locking, truncation and file positions of the flat files.
- FlatFiles.ReadShadow: a listed user's line with fewer than six fields makes the source read a missing field; here that is a failed read.
- BcryptHash.Crypt: the assembler version of the cipher and the self-test around the hash are left out; words are kept as on a little-endian machine.
- PrintAccounting.Analyze: page headers are not parsed; the number of bytes of a page is an argument.
- PrintSource.Image.ChunkNext: a read is at most the bytes asked for; interrupted reads are errors, as in the source.
- Conversion of droplets to areas: floating point for display.
- GroupBuild.Move: the transformation of a tag into a group name reads its buffer before writing it, so the name is an arbitrary function whose values begin with the prefix.
- Quoting for XML: the loop in the source returns after the first special character.
- UUID generation, password generation and date parsing: small or random functions without a property across functions.
