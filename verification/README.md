# Verified models of the krabka command line

A Dafny model of the parts of the krabka operator tools that carry an algorithm or a protocol of
their own, with proofs over all inputs and all runs. `dafny verify dfyconfig.toml` checks everything.

| files | what they model |
|---|---|
| `PowersOfTwo`, `BucketSort`, `HashTable`, `HashBits`, `HashInsertion`, `HashCapacity` | the simulator of Java's `HashMap` iteration order: insertion with two resize triggers, the stable sort that it refines, and the final table size |
| `LogDirs`, `LogDirsQuery`, `LogDirsCases` | the brokers that a log-directory listing queries, the three hash-table passes of its document, and the exact numbers of answers for which they are one pass |
| `Calendar`, `Decimals`, `DateFormat` | days to Gregorian dates, and printed dates that sort by time |
| `Chunks`, `Base64`, `Base64Numbers` | the chunked encoder and the shift-register decoder of base64, section 4 of RFC 4648, and both as arithmetic over the alphabet |
| `LineReader`, `LineLayout`, `Properties`, `PropertyLaws` | the `java.util.Properties` reader, on files laid out in any way and on those of a writer |
| `Jaas`, `JaasLayout` | the tokenizer and parser of `sasl.jaas.config`, on login modules in any spelling and layout |
| `FanOut` | the bounded executor over every completion order |
| `Sessions` | the admin UI's session store over every interleaving of its critical sections |
| `Consumer`, `ConsumerSeeks` | the console consumer's receive, process and close, and where it resumes |
| `RangeLayout`, `RangePlans`, `RangeText` | routing, moving and splitting a tenant's key ranges, the operations that plan it, and the `--ranges` text |
| `Acls`, `AclRequests`, `AclRoles`, `AclPlans`, `AclNames` | ACL plans, the requests they turn into, the role expansions, what a plan holds entry by entry, and the names and tables a second time |
| `Wrappers`, `Text`, `Naturals` | options, results, character classes and indices that the others share |

Loops of the program are methods with invariants, proved equal to a recursive or closed-form
specification; the theorems are about that specification. State that the program changes in place
is a class (`SessionStore`, `Stream`). No proof relies on automatic induction.

## Where a promise had to be corrected

* **Three passes are one pass.** `document_order` gives what one `Copy` pass gives for all lists of
  at most 9 and of at least 17 brokers, whatever the ids. Otherwise the long-bin resize can make the
  tables end at different sizes. When every queried broker answers, the failing numbers of brokers
  are exactly 13 to 16 (`LogDirsCases.AllAnswerExactly`); for 10 to 12 the query has already put the
  brokers into an order that repeats. When some do not answer, the failing numbers of answers are
  exactly 10 to 16 (`LogDirsCases.SomeAnswerExactly`): ten of 49 queried brokers are enough. For a
  single list, `LogDirs.UnstretchedIsOnePass` gives a sufficient condition.
* **Joining property files with a line feed** keeps their logical lines apart exactly when the first
  text has no pending backslash and does not end just after a continuation's carriage return
  (`LineReader.LineFeedSeparates`, with texts of each kind in `LineReader.PendingExamples`). A plain
  final CR is harmless.
* **Default ids of a range split** are unique exactly while the largest id leaves room below the
  32-bit limit (`RangeLayout.SplitIds`): the ids saturate instead of failing. A range with the largest id splits
  into two with that id (`RangeLayout.SaturatedSplit`).
* **`unconsumed`** is documented as the smallest offset of each partition, but takes the first one
  buffered. A run polls only when its buffer is empty, so what it leaves over is always the rest of
  its last poll, after that poll's first record (`ConsumerSeeks.StopsExactly`). Over given polls, the
  seeks of all runs are the least offsets exactly when in each poll the records after the first never
  go back (`ConsumerSeeks.SeeksLeastExactly`). They separate processed from unprocessed records
  exactly when every record of a poll but its first is above all earlier ones of its partition
  (`ConsumerSeeks.SeeksSeparateExactly`). One poll of offsets 1, 5 and 3 with a bound of one record
  is sought to 5 (`ConsumerSeeks.SeeksPastUnprocessed`).
* **`\u` escapes** need four hexadecimal digits, or a plus sign and three, since Rust's number parser
  takes the sign (`Properties.CodeOfExactly`): `\u+041` reads as `A` (`Properties.PlusExample`).

## Model

| member | source | states |
|---|---|---|
| `HashTable.BinRefines` | crates/krabka-cli/src/jvm.rs:79-83 | a key's bin in a smaller power-of-two table is its bin in a larger one modulo the smaller size, for every hash |
| `HashBits.BinBits` | crates/krabka-cli/src/jvm.rs:79-83 | bit i of a bin is the sum without carry of bits i and i + 16 of the unsigned hash code, for every hash and table size |
| `HashBits.BinIsFolded` | crates/krabka-cli/src/jvm.rs:79-83 | a bin is the number made by those bits |
| `HashTable.OrderKeepsBins` | crates/krabka-cli/src/jvm.rs:98-104 | ordering by a smaller table keeps the insertion order inside every bin of a larger one, so a resize may read the old bins |
| `HashTable.OrderIsTheStableSort` | crates/krabka-cli/src/jvm.rs:125-133 | the table order is a permutation and the one and only stable sort of the keys by bin |
| `HashTable.OrderAbsorbs` | crates/krabka-cli/src/jvm.rs:125-133 | ordering by a larger table forgets an order by a smaller one before it |
| `HashTable.OrderIdempotent` | crates/krabka-cli/src/jvm.rs:125-133 | ordering again by the same table changes nothing |
| `HashInsertion.Redistribute` | crates/krabka-cli/src/jvm.rs:98-104 | the resize loop puts each index into its bin in the new table, in the order of the old bins |
| `HashInsertion.Resize` | crates/krabka-cli/src/jvm.rs:98-104 | doubling turns the bins of the inserted keys in one table into those in the next, as if they had been inserted there |
| `HashInsertion.Push` | crates/krabka-cli/src/jvm.rs:105-107 | one insertion extends exactly the key's bin and gives that bin's size |
| `HashInsertion.Grow` | crates/krabka-cli/src/jvm.rs:108-117 | both resize triggers in turn, each keeping the bins those of the keys so far |
| `HashInsertion.InsertAll` | crates/krabka-cli/src/jvm.rs:105-117 | after all insertions the capacity is the specified one, and each bin holds its keys in insertion order |
| `HashInsertion.TakeAll` | crates/krabka-cli/src/jvm.rs:118-122 | taking each slot once loses no key |
| `HashInsertion.HashOrder` | crates/krabka-cli/src/jvm.rs:94-123 | for every key list, table kind and hash: the incremental table gives the stable sort by bin at the final capacity, a permutation of the keys; the sort key is the folded bits of the hash code |
| `HashInsertion.InitialCapacityIsPow2` | crates/krabka-cli/src/jvm.rs:57-77 | every table starts at a power of two of at most 2^30 |
| `HashCapacity.LoadCapacityIsLeast` | crates/krabka-cli/src/jvm.rs:112-116 | a table holds n keys without a load resize exactly when it is at least the load capacity of n |
| `HashCapacity.ReloadCatchesUp` | crates/krabka-cli/src/jvm.rs:112-116 | one load resize per insertion always suffices |
| `HashCapacity.CapacityBounds` | crates/krabka-cli/src/jvm.rs:105-117 | the final capacity is a power of two between max(initial, load) and max(initial, load, 64) |
| `HashCapacity.CapacityIsLoad` | crates/krabka-cli/src/jvm.rs:105-117 | the capacity follows max(initial, load) at every insertion if and only if no insertion meets the long-bin trigger without also needing the load resize |
| `HashCapacity.SmallOrLargeNeverStretches` | crates/krabka-cli/src/jvm.rs:108-111 | at most eight keys, or a table of at least 64, never take the long-bin resize |
| `HashCapacity.DefaultCapacity` | crates/krabka-cli/src/jvm.rs:135-144 | the loop gives the capacity that a default table reaches on load alone |
| `HashCapacity.SizesAre` | crates/krabka-cli/src/jvm.rs:9-20 | table sizes are the powers of two up to 2^30, the load threshold is three quarters, and a ninth key in a bin doubles a table below 64 |
| `HashCapacity.InitialExactly` | crates/krabka-cli/src/jvm.rs:57-77 | how small each kind of table may start, by the least size that it was asked for or that holds its keys |
| `HashCapacity.CopyIsLoad` | crates/krabka-cli/src/jvm.rs:63-77 | a copy starts at exactly the load capacity of its keys |
| `HashCapacity.WithCapacityIsBelowLoad` | crates/krabka-cli/src/jvm.rs:69-77 | a table asked for n bins starts at or below the load capacity of n keys |
| `HashCapacity.CopiesNeverReload` | crates/krabka-cli/src/jvm.rs:69-77 | copies of a map or set never resize on load |
| `LogDirs.DocumentOrder` | crates/krabka-cli/src/log_dirs.rs:162-171 | three insertions into tables give three specified passes, a permutation of the brokers |
| `LogDirs.OneCapacityOnePass` | crates/krabka-cli/src/log_dirs.rs:162-171 | if the three tables end at one size, the three passes are one |
| `LogDirs.UnstretchedIsOnePass` | crates/krabka-cli/src/log_dirs.rs:162-171 | if none of the three takes the long-bin resize, the three passes are one `Copy` pass |
| `LogDirs.OneDoubling` | crates/krabka-cli/src/jvm.rs:105-117 | a table below 64 that fits its keys doubles once or not at all, by whether some bin ends with more than eight |
| `LogDirs.SettledIsOnePass` | crates/krabka-cli/src/log_dirs.rs:162-171 | lists shorter than 10 or longer than 16 give one `Copy` pass, whatever the ids |
| `LogDirs.StaysExactly` | crates/krabka-cli/src/jvm.rs:105-117 | a table below 64 that fits its keys keeps its size if and only if no bin ends with more than eight, in whatever order |
| `LogDirsQuery.BrokersToQuery` | crates/krabka-cli/src/log_dirs.rs:128-158 | the query is refused if and only if a requested broker is unknown, and else holds exactly the wanted brokers in the order of a copied set |
| `LogDirsQuery.DescribeOrder` | crates/krabka-cli/src/log_dirs.rs:314-319 | the document lists exactly the queried brokers that answered, in three passes |
| `LogDirsQuery.PassesRepeat` | crates/krabka-cli/src/log_dirs.rs:155-171 | for 10 to 12 brokers, from a list that a pass gave, two more passes lead back |
| `LogDirsQuery.AllAnswerOnePass` | crates/krabka-cli/src/log_dirs.rs:155-171 | 10 to 12 queried brokers that all answer give one `Copy` pass |
| `LogDirsCases.DisagreeingAnswers` | crates/krabka-cli/src/log_dirs.rs:132-171 | for every number of answers from 10 to 16, a query of distinct brokers and answers for which three passes differ from one |
| `LogDirsCases.SomeAnswerExactly` | crates/krabka-cli/src/log_dirs.rs:132-171 | over every cluster, request and set of answers, n answers always give one pass if and only if n is below 10 or above 16 |
| `LogDirsCases.AllAnswerExactly` | crates/krabka-cli/src/log_dirs.rs:132-171 | over every cluster and request, n queried brokers that all answer always give one pass if and only if n is below 13 or above 16 |
| `LogDirsCases.OnePassExactly` | crates/krabka-cli/src/log_dirs.rs:162-171 | as a function of any list: all lists of length n give one pass if and only if n is below 10 or above 16 |
| `Calendar.CivilFromDaysStart` | crates/krabka-cli/src/delegation_tokens.rs:517-535 | day 0 is 1970-01-01 |
| `Calendar.CivilFromDaysStep` | crates/krabka-cli/src/delegation_tokens.rs:517-535 | for every integer day the result is a valid date and the next day's result is its Gregorian successor |
| `Calendar.DayNumberOfCivil` | crates/krabka-cli/src/delegation_tokens.rs:517-535 | the day number, counted by whole years and months, inverts the closed form |
| `Calendar.CivilOfDayNumber` | crates/krabka-cli/src/delegation_tokens.rs:517-535 | and the closed form inverts the day number on every valid date |
| `Calendar.DayNumberOrder` | crates/krabka-cli/src/delegation_tokens.rs:517-535 | day numbers order and identify dates |
| `Calendar.FieldsRecoverMinute` | crates/krabka-cli/src/delegation_tokens.rs:506-514 | the printed fields determine the floor of epoch milliseconds over 60000, negative values included |
| `DateFormat.PrintOrder` | crates/krabka-cli/src/delegation_tokens.rs:510-514 | the printed text of valid fields with years 0 to 9999 sorts as they do |
| `DateFormat.PrintPlaces` | crates/krabka-cli/src/delegation_tokens.rs:504-515 | for years 0 to 9999 the text is sixteen characters with the five numbers and the four marks in their places |
| `DateFormat.FormatOrder` | crates/krabka-cli/src/delegation_tokens.rs:504-515 | for years 0 to 9999 string order is time order by the minute, and equal text is the same minute |
| `Base64.EncodeChunk` | crates/krabka-cli/src/delegation_tokens.rs:544-558 | the bit fold and the four shifts give the chunk's sextets and its padding |
| `Base64.EncodeBase64` | crates/krabka-cli/src/delegation_tokens.rs:540-560 | the loop over chunks gives the specified encoding |
| `Base64Numbers.SymbolIs` | crates/krabka-cli/src/delegation_tokens.rs:537-538 | the symbol of a sextet is the character of the 64-character alphabet at that place |
| `Base64Numbers.IsSymbolExactly` | crates/krabka-cli/src/delegation_tokens.rs:537-538 | the symbols are exactly the characters of the alphabet |
| `Base64Numbers.EncodeAt` | crates/krabka-cli/src/delegation_tokens.rs:540-560 | every character of an encoding is the alphabet at a base-64 digit of the number that its three bytes make, zero past the end, or an equals sign |
| `Base64.UnpackPack` | crates/krabka-cli/src/delegation_tokens.rs:540-560 | bytes packed into sextets unpack to themselves |
| `Base64.PackUnpack` | crates/krabka-cli/src/delegation_tokens.rs:603-616 | sextets unpacked and packed again are themselves up to the unused low bits of the last |
| `Base64.ReadSymbols` | crates/krabka-cli/src/delegation_tokens.rs:572-610 | after the alphabet prefix the buffer holds its whole groups and the register the rest |
| `Base64.DecodeBase64` | crates/krabka-cli/src/delegation_tokens.rs:562-623 | the shift-register loop with its padding and error branches is the specified decoder |
| `Base64.DecodeEncode` | crates/krabka-cli/src/delegation_tokens.rs:540-623 | decoding an encoding gives the bytes back, with or without the padding |
| `Base64.AcceptsExactly` | crates/krabka-cli/src/delegation_tokens.rs:562-623 | an input is accepted if and only if it is k symbols and p pads with (k mod 4, p) one of the five shapes |
| `Base64Numbers.AcceptsTexts` | crates/krabka-cli/src/delegation_tokens.rs:562-623 | an input is accepted if and only if it is characters of the alphabet and equals signs in one of the five counts |
| `Base64Numbers.RefusedBecause` | crates/krabka-cli/src/delegation_tokens.rs:562-623 | which error a refused input gives, by its first character outside the alphabet |
| `Base64.EncodeDecode` | crates/krabka-cli/src/delegation_tokens.rs:540-623 | encoding what was accepted gives the padded input, with the unused low bits cleared |
| `Base64.ReencodesExactly` | crates/krabka-cli/src/delegation_tokens.rs:540-623 | encoding what was accepted gives the very symbols and their padding if and only if the unused low bits of the last symbol are zero |
| `LineReader.LogicalLines` | crates/krabka-cli/src/connection.rs:272-321 | the scanner with its flags and inner loops gives the lines of the one-character automaton |
| `LineReader.SettledLineFeed` | crates/krabka-cli/src/connection.rs:272-321 | the lines of two texts joined by a line feed are the lines of each, if the first is settled |
| `LineReader.PendingLineFeed` | crates/krabka-cli/src/connection.rs:301-312 | and they are not, for some second text, if it is pending |
| `LineReader.LineFeedSeparates` | crates/krabka-cli/src/connection.rs:272-321 | so a line feed separates from every second text if and only if nothing is pending |
| `LineReader.PendingExamples` | crates/krabka-cli/src/connection.rs:301-319 | a final backslash is pending, and so is one before a carriage return; a carriage return alone is not |
| `LineReader.LastCharacterSettles` | crates/krabka-cli/src/connection.rs:272-321 | a text that ends in neither a backslash nor a carriage return is settled |
| `LineLayout.LinesOfLayout` | crates/krabka-cli/src/connection.rs:267-321 | a file of blank lines, comments and logical lines, with any indents, continuations and line ends, holds exactly its logical lines |
| `LineLayout.CommentIsSkipped` | crates/krabka-cli/src/connection.rs:287-291 | a line whose first character after blanks is # or ! is skipped, whatever follows the file |
| `Properties.SplitKeyValue` | crates/krabka-cli/src/connection.rs:323-356 | the two scans cut at the first unescaped separator or blank and skip blanks and one separator |
| `PropertyLaws.SplitLine` | crates/krabka-cli/src/connection.rs:323-356 | a key, any gap of blanks with at most one equals sign or colon, and a value are split where they meet |
| `Properties.UnescapeLoop` | crates/krabka-cli/src/connection.rs:358-387 | the escape loop is the specified recursion, with both errors |
| `PropertyLaws.UnescapePair` | crates/krabka-cli/src/connection.rs:367-384 | what each character after a backslash stands for |
| `PropertyLaws.UnescapeCode` | crates/krabka-cli/src/connection.rs:368-377 | a code escape stands for the character of its code |
| `PropertyLaws.UnescapeBadCode` | crates/krabka-cli/src/connection.rs:368-377 | which error an escape without a code, or of half a surrogate pair, gives |
| `PropertyLaws.HexValueExactly` | crates/krabka-cli/src/connection.rs:370-371 | the value of a hexadecimal digit is its place among the sixteen, in either case |
| `Properties.CodeOfExactly` | crates/krabka-cli/src/connection.rs:368-373 | an escape has a code if and only if it is four hexadecimal digits, or a plus sign and three |
| `Properties.PlusIsAccepted` | crates/krabka-cli/src/connection.rs:368-377 | an escape with a plus sign and three digits is read as the character of that code |
| `Properties.ParseProperties` | crates/krabka-cli/src/connection.rs:222-233 | the whole reader is the specified one |
| `PropertyLaws.ParseLaidOut` | crates/krabka-cli/src/connection.rs:222-233 | a file laid out in any way gives the pairs of its logical lines |
| `Properties.ParseConcat` | crates/krabka-cli/src/connection.rs:213-233 | a later file's keys override an earlier one's |
| `Properties.UnescapeEscape` | crates/krabka-cli/src/connection.rs:358-387 | unescaping inverts escaping for all characters that an escape can carry |
| `Properties.ParseWrite` | crates/krabka-cli/src/connection.rs:222-387 | reading a written list of entries gives their map, through lines, splitting and unescaping |
| `Properties.FilesHoldExactly` | crates/krabka-cli/src/connection.rs:222-387 | some file reads as a given map if and only if its keys and values are within the Basic Multilingual Plane |
| `Jaas.SkipBlock` | crates/krabka-cli/src/connection.rs:444-451 | a block comment ends after its first star and slash, or at the end of the text |
| `Jaas.ReadQuoted` | crates/krabka-cli/src/connection.rs:472-508 | the quoted string with its escapes, and where it ends |
| `Jaas.JaasTokens` | crates/krabka-cli/src/connection.rs:430-470 | the tokenizer loop gives the specified tokens |
| `Jaas.ReadOptions` | crates/krabka-cli/src/connection.rs:534-551 | the option loop up to the semicolon, with its errors |
| `Jaas.ReadEntries` | crates/krabka-cli/src/connection.rs:516-553 | the module loop, with its errors in order |
| `Jaas.ParseJaas` | crates/krabka-cli/src/connection.rs:512-561 | exactly one module is required |
| `JaasLayout.QuotedTextOfQuote` | crates/krabka-cli/src/connection.rs:472-508 | reading a value in double or single quotes gives it back for every string, with quotes, backslashes and line ends |
| `JaasLayout.QuotedEscape` | crates/krabka-cli/src/connection.rs:482-503 | what a backslash and another character stand for inside quotes |
| `JaasLayout.QuotedOctal` | crates/krabka-cli/src/connection.rs:490-502 | up to three octal digits stand for the character of that code below 256 |
| `JaasLayout.TokensOfLexemes` | crates/krabka-cli/src/connection.rs:430-470 | words, quoted strings, numbers and signs, with any white space and comments between them, are read as their tokens |
| `JaasLayout.FlagsExactly` | crates/krabka-cli/src/connection.rs:527-528 | a control flag is accepted if and only if it is one of the four, in any case |
| `Jaas.RefusedBecause` | crates/krabka-cli/src/connection.rs:518-533 | which error a module gives for its name and flag |
| `Jaas.OptionRefusedBecause` | crates/krabka-cli/src/connection.rs:536-551 | which error an option gives that is not a key, an equals sign and a text, or has no semicolon after it |
| `JaasLayout.ParsePrint` | crates/krabka-cli/src/connection.rs:430-561 | login modules with each name, flag, key and value as a word or in double or single quotes, and any white space and comments, are read as the one module, or as the count of modules when it is not one |
| `JaasLayout.NumberIsNoValue` | crates/krabka-cli/src/connection.rs:541-546 | a number as a value is refused by its key |
| `JaasLayout.EveryEntryIsRead` | crates/krabka-cli/src/connection.rs:430-561 | every module name with every option map is what some text parses to |
| `FanOut.StartPending` | crates/krabka-cli/src/fan_out.rs:33-38 | the inner loop starts pending items in input order while there is room |
| `FanOut.Finish` | crates/krabka-cli/src/fan_out.rs:42-52 | one completion stores its output in its own slot and starts what then fits |
| `FanOut.Bounded` | crates/krabka-cli/src/fan_out.rs:15-55 | for every choice of the next ready future: output i is item i's, none is lost, and the executor goes through a whole run with room for max(limit, 1), so its completion order is a possible one |
| `FanOut.EveryRunWaits` | crates/krabka-cli/src/fan_out.rs:32-53 | in every run, what was started is an input prefix, split between running and finished |
| `FanOut.WaitingMeans` | crates/krabka-cli/src/fan_out.rs:32-53 | the executor waits only with min(limit, remaining) running, and each started item is in one place once |
| `FanOut.OrdersExactly` | crates/krabka-cli/src/fan_out.rs:15-55 | an order of completions can happen if and only if it repeats no item and the j-th is among the first limit + j items |
| `Sessions.SessionStore.CreateRecord` | crates/admin-ui/src/session.rs:215-239 | a create drops the expired records, stores the new one and changes nothing else |
| `Sessions.SessionStore.Get` | crates/admin-ui/src/session.rs:242-252 | an undisturbed lookup returns an unexpired record or removes an expired one |
| `Sessions.SessionStore.Remove` | crates/admin-ui/src/session.rs:265-267 | a logout removes its id only, and says whether it was there |
| `Sessions.Perform` | crates/admin-ui/src/session.rs:215-267 | performing any step on the store changes its table as the next state says, and a read returns the reply |
| `Sessions.StepKeepsInv` | crates/admin-ui/src/session.rs:215-267 | every step of every call keeps the invariant that ties pending creates and removes to the store |
| `Sessions.StepIsSafe` | crates/admin-ui/src/session.rs:215-267 | one step removes a record only by logout or after its expiry, and replaces or revives none |
| `Sessions.GoneStaysGone` | crates/admin-ui/src/session.rs:215-267 | an id that left the store never comes back |
| `Sessions.RunIsSafe` | crates/admin-ui/src/session.rs:215-267 | over every interleaving a stored record stays as it is until its id is logged out or its expiry has passed |
| `Sessions.LookupReturns` | crates/admin-ui/src/session.rs:242-252 | a lookup with anything before its read returns exactly a stored record that was not expired when it began, and finds every record that neither expired nor was logged out |
| `Sessions.SessionLasts` | crates/admin-ui/src/session.rs:215-252 | over every interleaving, a session created at moment t and not logged out is found with what was asked for by every lookup that reads before t plus the time to live, and by none that begins at or after it |
| `Sessions.ReachableInv` | crates/admin-ui/src/session.rs:176-184 | every reachable state of a new store satisfies the invariant |
| `Sessions.MatchesIsEquality` | crates/admin-ui/src/session.rs:82-101 | the fold over byte differences is equality |
| `Consumer.Stream.Await` | crates/krabka-cli/src/console_consumer.rs:954-968 | one poll adds its records to the buffer, or stops for the reason that it gave |
| `Consumer.Stream.Receive` | crates/krabka-cli/src/console_consumer.rs:942-970 | the loop is the specified receive, with every record accounted for |
| `Consumer.NextMeans` | crates/krabka-cli/src/console_consumer.rs:942-970 | a receive takes the next buffered record, or the first one of the first poll that brings any after quiet ones, or stops with an empty buffer and its reason |
| `Consumer.Stream.Process` | crates/krabka-cli/src/console_consumer.rs:751-795 | the loop is the specified run, and its count is the number of records received |
| `Consumer.RunMeans` | crates/krabka-cli/src/console_consumer.rs:751-795 | every run accounts for every polled record, stays within the bound, and ends for a cause, with all records but the last rendered or skipped, and written |
| `Consumer.Stream.Unconsumed` | crates/krabka-cli/src/console_consumer.rs:987-1000 | the scan gives the first buffered offset of each partition |
| `ConsumerSeeks.SeeksSeparate` | crates/krabka-cli/src/console_consumer.rs:972-1000 | with ascending offsets, a record is at or above its partition's seek if and only if it was not processed |
| `ConsumerSeeks.SeeksResume` | crates/krabka-cli/src/console_consumer.rs:972-1000 | with ascending offsets, exactly the partitions with leftovers are sought, each to its least unprocessed offset, above every processed one |
| `ConsumerSeeks.Consume` | crates/krabka-cli/src/console_consumer.rs:751-1000 | a whole run: processed and left-over records are the concatenation of the polls, the bound holds, the leftover is the rest of the last poll, and with ascending offsets closing resumes where processing stopped |
| `ConsumerSeeks.RunStops` | crates/krabka-cli/src/console_consumer.rs:944-970 | whatever a run is asked for, it leaves over the rest of its last poll, whose first record it has taken, or nothing |
| `ConsumerSeeks.RunReaches` | crates/krabka-cli/src/console_consumer.rs:752-795 | for every record of every poll before a failure, some run stops right after it |
| `ConsumerSeeks.StopsExactly` | crates/krabka-cli/src/console_consumer.rs:752-970 | a run over given polls can stop with a leftover if and only if it is the rest of a poll that the run has begun |
| `ConsumerSeeks.SeeksLeastExactly` | crates/krabka-cli/src/console_consumer.rs:972-1000 | over given polls every run seeks to the least leftover offsets if and only if within each poll that a run gets to, the records after the first never go back |
| `ConsumerSeeks.SeeksSeparateExactly` | crates/krabka-cli/src/console_consumer.rs:972-1000 | over given polls the seeks of every run separate processed from unprocessed records if and only if in each poll that a run gets to, every record but the first is above all earlier ones of its partition |
| `ConsumerSeeks.SeeksPastUnprocessed` | crates/krabka-cli/src/console_consumer.rs:972-1000 | a run bounded to one record over a poll of offsets 1, 5 and 3 seeks to 5, past the unprocessed 3 |
| `RangeLayout.SourceRangeForKey` | crates/krabka-cli/src/gres.rs:1247-1264 | the loop is the specified routing, and in a partition finds a range that contains the key |
| `RangeLayout.LessIsNumeric` | crates/krabka-cli/src/gres.rs:1204-1210 | boundaries are ordered as the numbers that table, bucket and rowid make, a missing bucket being 0 |
| `RangeLayout.RouteFinds` | crates/krabka-cli/src/gres.rs:1247-1264 | in a partition every key is routed to the one range that contains it |
| `RangeLayout.MaxIdIs` | crates/krabka-cli/src/gres.rs:1266-1274 | the largest id is an upper bound that some range has |
| `RangePlans.PlanMove` | crates/krabka-cli/src/gres.rs:816-871 | a move is planned if and only if its source exists and its replacement is fresh; the operation names the range and generation replaced, and its plan replaces that entry only, which is a change that a run may make |
| `RangeLayout.MoveKeeps` | crates/krabka-cli/src/gres.rs:821-854 | a move keeps the partition, the unique ids and every key's position |
| `RangePlans.SplitBoundaryExactly` | crates/krabka-cli/src/gres.rs:762-781 | a boundary is accepted if and only if a bucket is given exactly for a hash-placed table, below the count of its first placement |
| `RangePlans.PlanSplit` | crates/krabka-cli/src/gres.rs:685-735 | the operation halves the range of its boundary with ids, endpoints and generation as given or by default; in a partition it is refused if and only if the boundary is, or is a range's own start, and it is a change that a run may make if and only if its ids are fresh |
| `RangeLayout.HalvedIsWellFormed` | crates/krabka-cli/src/gres.rs:707-724 | a split strictly inside a range keeps the partition |
| `RangeLayout.SplitRoutes` | crates/krabka-cli/src/gres.rs:707-724 | a split routes the source's keys left or right of the boundary, and every other key as before |
| `RangeLayout.HalvedIds` | crates/krabka-cli/src/gres.rs:688-693 | the ids of a split, given or not, stay unique if and only if its two are distinct and no other range has them |
| `RangeLayout.SplitIds` | crates/krabka-cli/src/gres.rs:687-693 | default ids stay unique if and only if they have room below the 32-bit limit |
| `RangeLayout.SaturatedSplit` | crates/krabka-cli/src/gres.rs:687-693 | a single range with the largest id gets two successors with that id |
| `RangeLayout.ChangeKeepsApart` | crates/krabka-cli/src/gres.rs:685-854 | no move or split brings keys of different ranges together or changes their order |
| `RangeLayout.RunKeepsSound` | crates/krabka-cli/src/gres.rs:685-854 | every run of moves and interior splits keeps unique ids and a partition that routes every key, and never brings keys of different ranges together |
| `RangeLayout.RunKeepsEndpoints` | crates/krabka-cli/src/gres.rs:694-703 | every run with default endpoints leaves each range at the endpoint of its id, and no two ranges at one |
| `RangeLayout.RunServes` | crates/krabka-cli/src/gres.rs:707-714 | in every run each range that was not there before serves and is not retired |
| `RangeText.AcceptedTextPartitions` | crates/krabka-cli/src/gres.rs:1140-1178 | every accepted text partitions the key space, routing finds the unique range of every key, and each range has its default endpoint |
| `RangeText.ParsePrintedBoundary` | crates/krabka-cli/src/gres.rs:1180-1202 | a printed boundary parses to itself |
| `RangeText.ParsePrint` | crates/krabka-cli/src/gres.rs:1140-1202 | every increasing list of boundaries from the start can be written and is read back as its ranges |
| `RangeText.UnsignedOf` | crates/krabka-cli/src/gres.rs:1180-1202 | digits, with or without a plus sign, are read as their number up to the limit |
| `RangeText.BoundaryForms` | crates/krabka-cli/src/gres.rs:1180-1202 | one, two or three numbers make a table start, a rowid or a bucket and a rowid |
| `RangeText.AcceptedExactly` | crates/krabka-cli/src/gres.rs:1140-1178 | a text of tokens with any white space is accepted if and only if those that are not blank spell boundaries that rise from 0, and gives their ranges |
| `Text.TrimAround` | crates/krabka-cli/src/gres.rs:1147-1150 | trimming takes away exactly the white space around a text |
| `Acls.ReadPrincipals` | crates/krabka-cli/src/acls.rs:650-665 | the loop keeps each trimmed principal once, in the order first seen, and refuses exactly one without a colon |
| `Acls.Entries` | crates/krabka-cli/src/acls.rs:900-929 | the nested loops give the two products of principals, operations and hosts, and refuse `ANY` exactly when a principal is given |
| `Acls.ResourceAcls` | crates/krabka-cli/src/acls.rs:826-898 | the filling loops give the specified expansion, whatever the order of the resources |
| `AclPlans.RolePlanHolds` | crates/krabka-cli/src/acls.rs:850-878 | an accepted role plan has exactly the resources of its roles, and on each exactly the allowed principals from the allowed hosts with the operations of the roles |
| `AclPlans.ExplicitPlanHolds` | crates/krabka-cli/src/acls.rs:835-849 | an accepted explicit plan has exactly the selected resources, and on each the allowed and denied entries for the operations named |
| `AclNames.SupportedExactly` | crates/krabka-cli/src/acls.rs:199-231 | the operations of each resource type are those that the table by operation gives it |
| `AclNames.OperationNamed` | crates/krabka-cli/src/acls.rs:389-399 | an operation is named by its Pascal-case name in any case and by nothing else |
| `AclNames.PatternNamed` | crates/krabka-cli/src/acls.rs:278-290 | a pattern type is named by its Java name in any case and by nothing else |
| `AclNames.FlagsExactly` | crates/krabka-cli/src/acls.rs:731-797 | flags are accepted if and only if they can be used together |
| `AclRequests.BindingInverse` | crates/krabka-cli/src/acls.rs:555-618 | a supported entry on a concrete pattern has a binding, which reads back as that resource and entry |
| `AclRequests.FilterInverse` | crates/krabka-cli/src/acls.rs:569-578 | a supported entry has a filter that names it and its resource exactly |
| `AclNames.BindingNames` | crates/krabka-cli/src/acls.rs:555-566 | a binding carries its entry and resource, and its operation by name |
| `AclNames.FilterNames` | crates/krabka-cli/src/acls.rs:569-578 | a filter carries its entry and resource, and its operation by name |
| `AclRequests.AddedListsBack` | crates/krabka-cli/src/acls.rs:993-1009 | the bindings of a valid map, collected as a listing does, are that map |
| `AclRequests.RemoveNamesEntries` | crates/krabka-cli/src/acls.rs:1020-1039 | the filters of a resource name exactly its entries, and the whole resource only when it lists none |
| `AclRequests.AcceptedPlansConvert` | crates/krabka-cli/src/acls.rs:731-824 | an accepted add or remove never fails to convert, and an accepted add has a binding on every resource |
| `AclRoles.RolesUnite` | crates/krabka-cli/src/acls.rs:850-878 | both roles give each resource the union of what each role gives alone, and fail when either does |
| `AclRoles.RoleAddAccepted` | crates/krabka-cli/src/acls.rs:731-824 | an add for a role is accepted if and only if the flags are good, the pattern is concrete and there are principals, all with a colon |
| `AclRoles.ExplicitAddAccepted` | crates/krabka-cli/src/acls.rs:731-824 | an explicit add is accepted if and only if, besides, it names a resource and each resource supports each operation |
| `AclPlans.RoleRemoveAccepted` | crates/krabka-cli/src/acls.rs:731-824 | a remove for a role is accepted if and only if the flags are good and the pattern and principals well formed |
| `AclPlans.ExplicitRemoveAccepted` | crates/krabka-cli/src/acls.rs:731-824 | an explicit remove is accepted if and only if, besides, it names a resource, and a principal only with supported operations |
| `AclPlans.ListAccepted` | crates/krabka-cli/src/acls.rs:798-804 | a list is accepted if and only if its pattern and principals are well formed, and shows the selected resources |

## Left out

- Broker, registry, TLS and SASL calls, terminal and file I/O: their results are inputs. A poll script that runs out counts as a cancellation.
- `usize` overflow in the hash-table code: sizes are unbounded naturals, and the table size is capped at 2^30 as in the code.
- `spread` and the bin masks: written on naturals with explicit exclusive-or and masking, on hashes taken modulo 2^32.
- The JDK's tree bins: the program keeps insertion order in a long bin, and so does the model.
- `string_hash`, `topic_partition_hash`, `hash_set_order`, `broker_list` and `printable_log_dirs`: folds, parsing and clients of the modelled order that would add only easy members. Broker ids of a cluster and of a request are taken to be distinct, as `broker_list` makes them.
- `sort_by_key`: taken to be a stable sort, whose result is unique (`HashTable.OrderIsTheStableSort`).
- Base64 error texts: the model has one constructor per message, without the offending byte or position in words.
- `i64` overflow of day counts near the ends of the range: integers are unbounded.
- Characters outside the Basic Multilingual Plane in `Properties` files: no escape can carry them (`Properties.FilesHoldExactly`).
- The trimmed `get` of `Properties`, its sections and the connection settings built from it: lookups.
- Session ids: assumed never to repeat, in place of random UUIDs. Constant-time comparison and redaction are not modelled.
- The order of a session store's lock queue: every interleaving of critical sections is allowed.
- `RangeBoundary`'s own order is not part of the repository: it is taken to be the lexicographic one of `range_boundary_key`.
- `split_range_layout` is not part of the repository: it is taken to replace the source by its two successors in place and to refuse a boundary that is not strictly inside the source.
- The constructors that seal an operation record are not part of the repository: they are taken to accept what they are given. The lifecycle of a new tenant's ranges, a default of that crate, is a parameter.
- ACL requests are sets and maps, not lists in `BTreeMap` order; `--list` requests, confirmation and reports are not modelled, and how a broker matches a filter is its own affair.
- Human and JSON report texts, exit codes and the tables of flags throughout.
