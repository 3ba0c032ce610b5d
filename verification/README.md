# A verified model of the Ledger XRP signing app

The app receives a serialized XRPL transaction in packets, parses it on the
device, shows it to the user and signs exactly the bytes it parsed.  This
project models that path in Dafny and proves what the app is trusted for:

* what is shown is the transaction that was sent (the parser undoes the XRPL
  serializer, byte by byte and row by row);
* what is signed is what was parsed for review, once, under every sequence of
  packets and answers;
* amounts, times, flags, currencies and addresses are rendered exactly.  Times and
  addresses can be read back from their texts, and so can amounts of the ledger's
  range; for amounts, flags and currency codes in general it is stated exactly
  which values read alike.

Code that changes things in place is modelled by classes, arrays and loops with
the same branches, constants and error codes.  Each such method is tied to a
specification function, and the properties are proved about that function.  Codes,
limits and texts are stated once more as plain figures and words in the theorems, so
that a specification and its code cannot be wrong together.

| file | component |
|---|---|
| `Fields.dfy`, `FieldSort.dfy` | rows of the review, their tables, the gnome sort |
| `TransactionSpec.dfy`, `Parser.dfy` | the streaming parser: its specification item by item, and the class that fills a table of 60 rows in place |
| `Conservation.dfy`, `TypedRows.dfy` | what every run of the parse loop keeps |
| `Nesting.dfy`, `Outermost.dfy` | how far the nesting registers can be trusted; which items are outside of every array and object, and which are taken for that |
| `ClearSigning.dfy`, `OwnRows.dfy`, `SigningKey.dfy` | for all bytes: what a review without warning guarantees, and whether types, swap rows and signing key are the transaction's own |
| `Wire.dfy`, `Serializer.dfy`, `LeafRoundTrip.dfy`, `RoundTrip.dfy`, `Review.dfy` | the XRPL binary format from the sender's side, with codes and limits of its own, and the round trip through the parser up to the final review, error or blind-signing stop |
| `ShownFields.dfy`, `RegularKey.dfy` | the review of a transaction in figures: which fields are shown, in which order, and what calls for a warning |
| `TopLevel.dfy`, `OwnFields.dfy` | the same told from the tree of a transaction |
| `HiddenFields.dfy`, `NestedSwaps.dfy`, `FlagReviews.dfy` | transactions that are shown without a warning as what they are not |
| `SessionSpec.dfy`, `Session.dfy` | the signing session as a state machine, and as the app keeps it in a fixed buffer and a few globals |
| `SessionSafety.dfy`, `HonestRun.dfy` | theorems over all runs of the session: safety, and completeness for the honest sender |
| `SessionFigures.dfy` | what the session answers to each packet, in figures |
| `Address.dfy`, `Swap.dfy` | addresses, and the check that replaces the review when an exchange calls the app |
| `Numerals.dfy`, `Base58.dfy` | positional numerals and the in-place base-58 encoder |
| `Decimal.dfy`, `CString.dfy`, `PrintNumber.dfy`, `IssuedAmount.dfy`, `XrpAmount.dfy`, `Amount.dfy`, `AmountsAlike.dfy` | the two amount formats, their in-place decimal renderers, and which amounts read alike |
| `Currency.dfy`, `CurrencyText.dfy` | currency codes and their texts |
| `Calendar.dfy`, `TimeText.dfy` | times and their texts |
| `Flags.dfy`, `FlagFields.dfy`, `FlagFigures.dfy` | flag labels, the texts of the three flag fields, and what each bit reads |

`dafny verify dfyconfig.toml` checks everything.

"Filed at top level" means below that the parser's registers record no array and
depth 0; "outermost" that no array, path set or object is open (`Nesting.NestAt`).
An item "strays" if something is open around it, but the byte counter has lost all
open objects, and no array is open or the last mark of one was an end (or the
beginning of an array of code 0) (`Outermost.Strays`); while
fewer than 256 objects are open that is: in an array, behind the end of another one
in it, outside of all objects (`Outermost.NothingLostBelow256`).

Points where the obvious stronger statement is false of the code, each with an
input that shows it and the condition under which it holds:

* The recorded object depth is a byte.  It is the number of open objects
  exactly while fewer than 256 are open (`Nesting.DepthIsTrueBelow256`); with
  256 open it is 0 (`Nesting.DepthCanWrap`).
* The current array is one value and not a stack.  It is the innermost open
  array exactly as long as none is closed inside another
  (`Nesting.ArrayIsTrueUnnested`, `Nesting.ArrayCanBeForgotten`).
* So not everything filed at top level is outermost.  For all bytes, what is
  outermost is filed there (`Outermost.OutermostIsTaken`).  No array is recorded
  only where none is open exactly if the end of an array never leaves another one
  open and no array has code 0 (`Outermost.NoArrayIsTrueUnnested`); depth 0 only
  where no object is open exactly if fewer than 256 ever are
  (`Outermost.NoDepthIsTrueBelow256`).  An item is filed at top level exactly if it
  is outermost or strays (`Outermost.TakenIsOutermostOrStrays`,
  `Outermost.BehindEmptyArray`).  Any fields can be hidden in this way
  (`HiddenFields.HiddenFieldsAreReviewed`).
* A transaction whose type and sender both stand in an array is shown without a
  warning (`OwnRows.HiddenTypeIsNotOwn`).  The TransactionType rows shown are all
  outermost exactly if none strays (`OwnRows.TypesAreOwn`).
* The check for a swap looks at types and codes of rows and not at their nesting.
  It accepts a Payment whose tag, amount, fee and destination all stand inside an
  object, or hidden in an array (`NestedSwaps.NestedSwapIsAccepted`), and the
  session signs it (`HonestRun.NestedSwapIsSigned`).  For all accepted bytes, the
  rows are all outermost exactly if they are filed at top level and none strays
  (`OwnRows.SwapRowsAreOwn`).
* The signer's key hash is appended if the parser has seen an empty signing key
  filed at top level.  A parse that stops for blind signing does not see what comes
  behind the stop (`SigningKey.KeyBehindTheStopIsMissed`), and a key in an array
  can be taken for the transaction's own (`SigningKey.KeyInArrayIsTaken`,
  `HiddenFields.HiddenKeyIsTaken`).  Which items set the bit is
  `SigningKey.EmptyKeyIsAnItem`, and exactly when it can be trusted
  `SigningKey.KeyBitIsTrue`, both for all bytes.
* 0xFFFF stands for "no transaction type yet" and is also a value on the wire.
  A review without warning may start with TransactionType rows of that value,
  but the last one holds the type (`ClearSigning.ClearSigningIsSound`,
  `Review.TwoTypesAreShown`); it has just one such row exactly if the transaction
  has no TransactionType of 0xFFFF anywhere (`OwnFields.OneTypeNode`).
* The text of a flag field determines the whole value only for SetFlag and
  ClearFlag of AccountSet; otherwise it tells the bits that the type has labels for
  and nothing else (`FlagFields.FieldTextsAlike`).  The check for unknown bits makes
  up for that in the Flags filed at top level of a type with a formatter
  (`ClearSigning.ClearFlagsAreExact`), but not in other types and not in objects
  (`FlagReviews.ShownFlagsReadAlike`, `FlagReviews.TwoFlagsReadAlike`).
* Amounts out of range all read as invalid, and zero tokens have several spellings
  (`AmountsAlike.TwoValuesReadAlike`); exactly which amount fields read alike is
  `AmountsAlike.AmountsReadAlike`.
* The text of a currency row determines the code but for one family: a nonstandard
  code that spells a ticker reads like the standard code of that ticker
  (`CurrencyText.TextTellsCode`, `CurrencyText.TwoCodesReadUsd`).
* Trimming the zeros of a native amount gives the shortest text exactly for
  positive amounts (`XrpAmount.NativeTextDenotes`); zero drops read
  `XRP 0.000000` (`XrpAmount.ZeroDropsText`).

The repository's own README lists NFTokenAcceptOffer among the supported
transaction types.  The code has no case for it in `src/xrp/xrp_parse.c:95-132`,
so such a transaction needs blind signing; the model follows the code.

## Model

First the theorems, then the methods, each of which is tied to its specification.

| member | source | states |
|---|---|---|
| `RoundTrip.ParserUndoesSerializer` | src/xrp/xrp_parse.c:677-699 | For every transaction, however nested and with fields of known or unknown types, the parse loop over its XRPL serialization shows exactly the rows read off the tree (codes, contents, the array and depth recorded; hidden fields dropped) and ends as the tree says: behind the last field, at a misplaced TransactionType, or with the error of the limit it exceeds, of a malformed field or of an unknown type |
| `Review.ParsingReviewsTheTransaction` | src/xrp/xrp_parse.c:677-745 | The same for the whole parse, all verdicts included: review order, the row for a removed regular key, type, empty-key bit, the error, and each of the four causes of a blind-signing warning follow from the transaction itself |
| `ShownFields.TransactionIsShownAsExpected` | src/xrp/xrp_parse.c:677-745 | The review of every transaction that is read to its end, in figures: the rows in their order, the type, the key bit, refusals, and the warning for unknown types, two Flags fields, unlabelled bits and unnamed fields |
| `ShownFields.TransactionTells` | src/xrp/fields.c:324-341 | Every field leaves its row but for UINT32 4 and 27 and VL 3 outside of arrays, and UINT32 2, 33 and 34 of value 0 or 2^31; containers leave none; the type is that of the last TransactionType row |
| `RegularKey.RegularKeyIsShown` | src/xrp/xrp_parse.c:647-662 | A regular key is shown exactly if the transaction holds it, and the row of a removed key exactly in a SetRegularKey that holds none |
| `ShownFields.ClearReviewInFigures` | src/xrp/xrp_parse.c:95-745 | For all bytes shown without a warning, in figures: which types, which fields, which rows come first, which flags |
| `RoundTrip.LeftOutIsHidden` | src/xrp/fields.c:324-341 | The parser hides the row of a leaf exactly if the review does without it |
| `Serializer.FlatIsFiledInPlace` | src/xrp/xrp_parse.c:381-412 | Without arrays in arrays and with fewer than 256 objects open, the array and depth recorded behind any fields are those recorded before them, so that every field is filed where it stands |
| `Serializer.OutsideStaysOutside` | src/xrp/xrp_parse.c:381-412 | Behind every field of the transaction itself, whatever it holds, no array and no object is recorded |
| `LeafRoundTrip.HeaderRoundTrip` | src/xrp/xrp_parse.c:561-592 | The canonical header of any type and field code in 1..255 decodes to both, in 1 to 3 bytes |
| `LeafRoundTrip.LengthRoundTrip` | src/xrp/xrp_parse.c:237-262 | The canonical length prefix of any n up to 12480 decodes to n in one or two bytes |
| `LeafRoundTrip.AcceptedLengthIsCanonical` | src/xrp/xrp_parse.c:237-262 | Every length prefix the parser accepts is the canonical one of what it reads, and at most 12480 |
| `LeafRoundTrip.FormatInBytes` | src/xrp/xrp_parse.c:237-592 | Headers, length prefixes and numbers byte by byte, at the edges of each form |
| `LeafRoundTrip.NumberRoundTrip` | src/xrp/xrp_parse.c:513-523 | Big-endian decoding undoes fixed-width encoding |
| `LeafRoundTrip.LeafIsRead` | src/xrp/xrp_parse.c:504-559 | Every kind of leaf reads back with its own row and the rows it brings along, and the cursor ends behind it |
| `LeafRoundTrip.LeafIsRefused` | src/xrp/xrp_parse.c:504-559 | A leaf with more rows than are left is refused for want of space, a token named like the native one as malformed, an unknown type as not supported |
| `LeafRoundTrip.IssuedIsRead` | src/xrp/xrp_parse.c:273-310 | A token amount yields its row, a currency row exactly for a non-standard code, and the issuer row, each with the right bytes |
| `LeafRoundTrip.VectorIsRead` | src/xrp/xrp_parse.c:312-356 | A vector of hashes yields one row per entry, numbered from 1 |
| `LeafRoundTrip.IssueIsRead` | src/xrp/xrp_parse.c:358-379 | An issue is 20 zero bytes, or currency and issuer with an issuer row |
| `RoundTrip.StepReached` | src/xrp/xrp_parse.c:414-448 | One path step is consumed and shown with its path and step number |
| `RoundTrip.PathsLead` | src/xrp/xrp_parse.c:450-502 | A whole path set is consumed and shown in order, or refused at its seventh path, ninth step or 61st row |
| `RoundTrip.NodesLead` | src/xrp/xrp_parse.c:664-699 | Induction over the tree: from matching registers the loop consumes the fields' bytes and ends with matching registers, or stops where and how the tree says |
| `Serializer.Read` | src/xrp/xrp_parse.c:677-699 | Reading a list of fields uses up exactly as many rows as it shows |
| `Conservation.BytesAreConserved` | src/xrp/xrp_parse.c:677-699 | For all bytes: completed items tile a prefix of the input, the whole of it exactly when the loop ends without error; every row points into its own item; never more than 60 rows |
| `Conservation.EveryByteHasOneOwner` | src/xrp/xrp_parse.c:684-699 | Every byte of a tiling belongs to exactly one item |
| `Conservation.ItemInside` | src/xrp/xrp_parse.c:664-675 | An iteration consumes at least one byte, stays in the input, and all its rows, synthesized ones included, lie inside it |
| `Conservation.PathStepsAreNumberedInOrder` | src/xrp/xrp_parse.c:414-502 | Within a path set, paths are numbered 1..6 and steps 1..8 in strictly increasing order; two rows share a number only as currency and issuer of one 0x30 step, 40 consecutive bytes |
| `Conservation.FramesAreOk` | src/xrp/xrp_parse.c:381-502 | Array index, path index, step index and depth stay in range at every item |
| `Nesting.DepthIsTrueBelow256` | src/xrp/xrp_parse.c:393-412 | The recorded depth equals the number of open objects throughout exactly if that number stays below 256 |
| `Nesting.DepthCanWrap` | src/xrp/xrp_parse.c:396-404 | 288 bytes that open 256 objects bring the counter back to 0 |
| `Nesting.ArrayIsTrueUnnested` | src/xrp/xrp_parse.c:381-391 | The recorded array is the innermost open one throughout exactly if no array or path set is closed inside another |
| `Nesting.ArrayCanBeForgotten` | src/xrp/xrp_parse.c:381-391 | Four bytes after which an open array is no longer recorded |
| `ClearSigning.ClearSigningIsSound` | src/xrp/xrp_parse.c:594-745 | A review without warning has a supported type, starts with its TransactionType rows, all filed at top level, the last one holding the type and the others 0xFFFF; every row has a name; at most one Flags row filed at top level, without unknown bits |
| `OwnFields.OneTypeNode` | src/xrp/xrp_parse.c:603-616 | A transaction shown without a warning has just one TransactionType row exactly if it has no TransactionType of 0xFFFF anywhere |
| `Review.TwoTypesAreShown` | src/xrp/xrp_parse.c:603-616 | A transaction with types 0xFFFF and 0 is shown without a warning, with two TransactionType rows |
| `TopLevel.TypesAreNodes` | src/xrp/xrp_parse.c:603-616 | A transaction read to its end shows a TransactionType of a value exactly if there is one anywhere in it |
| `TopLevel.NodesTopLevel` | src/xrp/xrp_parse.c:181-203 | All rows read off fields without hashes are filed at top level exactly if none of the fields files one in an array or object |
| `TopLevel.OwnRowsAreFiledOutside` | src/xrp/xrp_parse.c:181-203 | If only the transaction's own fields show rows, none is filed inside; without arrays in arrays, only then |
| `Outermost.OutermostIsTaken` | src/xrp/xrp_parse.c:381-412 | For all bytes: an item outside of every array, path set and object is filed at top level |
| `Outermost.NoArrayIsTrueUnnested` | src/xrp/xrp_parse.c:381-391 | No array is recorded only where none is open, throughout, exactly if the end of an array always leaves none open and no array has code 0 |
| `Outermost.NoDepthIsTrueBelow256` | src/xrp/xrp_parse.c:393-412 | Depth 0 is recorded only where no object is open, throughout, exactly if fewer than 256 are ever open |
| `Outermost.WhenNoArrayIsRecorded` | src/xrp/xrp_parse.c:381-391 | For all bytes: no array is recorded exactly if none is open or the last array mark was an end (or the beginning of an array of code 0) |
| `Outermost.TakenIsOutermostOrStrays` | src/xrp/xrp_parse.c:603-629 | For all bytes: an item is filed at top level exactly if it is outermost or strays |
| `Outermost.DepthCountsTheRest` | src/xrp/xrp_parse.c:393-412 | For all bytes: the recorded depth is the number of open objects less those the byte counter has lost |
| `Outermost.NothingLostBelow256` | src/xrp/xrp_parse.c:393-412 | While fewer than 256 objects are open none is lost, and what strays is outside of all objects, in an array, behind the end of another one in it |
| `Outermost.RowsAreFiled` | src/xrp/xrp_parse.c:181-203 | For all bytes: every row but those of hashes carries the array and depth recorded in front of its item |
| `Outermost.BehindEmptyArray` | src/xrp/xrp_parse.c:381-391 | For all bytes that begin with an empty array in an array: what follows is filed at top level and is not outermost |
| `OwnRows.TypesAreTaken` | src/xrp/xrp_parse.c:603-616 | For all bytes: an item that shows a TransactionType shows nothing else and is filed at top level |
| `OwnRows.ClearTypesAreTaken` | src/xrp/xrp_parse.c:594-745 | The TransactionType rows of a review without warning are exactly the single rows of those items |
| `OwnRows.TypesAreOwn` | src/xrp/xrp_parse.c:603-616 | For all bytes: the items that show a TransactionType are all outermost exactly if none strays |
| `OwnRows.HiddenTypeIsNotOwn` | src/xrp/xrp_parse.c:603-616 | For every supported type: a transaction whose type and sender stand in an array is shown without a warning |
| `SigningKey.EmptyKeyIsAnItem` | src/xrp/xrp_parse.c:621-631 | For all bytes: the bit is set exactly if an empty signing key filed at top level was read before the parser stopped, which is one that is outermost or strays |
| `SigningKey.KeyBitIsTrue` | src/xrp/xrp_parse.c:621-631 | For all bytes: the bit tells whether an outermost empty signing key was read, exactly unless one strays and there is no outermost one |
| `SigningKey.KeyInArrayIsTaken` | src/xrp/xrp_parse.c:621-631 | Six bytes whose empty signing key stands in an open array and sets the bit |
| `SigningKey.KeyBehindTheStopIsMissed` | src/xrp/xrp_parse.c:594-631 | Eight bytes with an outermost empty signing key for which the bit is not set, since the parser stopped for blind signing before it |
| `SigningKey.EmptyKeyOfTransaction` | src/xrp/xrp_parse.c:621-631 | A transaction read to its end sets the bit exactly if it has an empty signing key filed at top level, any other only if it has; its own always are, and without arrays in arrays no others |
| `HiddenFields.HiddenFieldsAreReviewed` | src/xrp/xrp_parse.c:677-745 | For all fields in front and all fields put into an array behind an empty one: the verdict is that of the fields in front followed by the hidden ones at top level |
| `HiddenFields.HiddenKeyIsTaken` | src/xrp/xrp_parse.c:621-631 | A transaction without an empty signing key of its own that is shown without a warning and with the bit set |
| `ClearSigning.ClearFlagsAreExact` | src/xrp/xrp_parse.c:717-729 | In a review without warning, the Flags row filed at top level of a type with a formatter reads a nonempty list of labels that no other value without unknown bits reads, but for the canonical-signature bit |
| `ClearSigning.ItemTypes` | src/xrp/xrp_parse.c:594-618 | An item records a TransactionType only as the first one, filed at top level and alone |
| `TypedRows.ReviewedRowsAreTyped` | src/xrp/xrp_parse.c:504-645 | In every review numbers fit their size, pointers lie in the transaction, accounts have 20 bytes, and 8-byte amounts have the top bit clear |
| `TransactionSpec.ParseItemAdvances` | src/xrp/xrp_parse.c:684-699 | An iteration moves the cursor forward within the input and never overfills the table |
| `Parser.HiddenStandsAlone` | src/xrp/xrp_parse.c:694-698 | No value whose row is hidden appends further rows, so the removal never fails |
| `Parser.BlindStandsAlone` | src/xrp/xrp_parse.c:603-616 | A row that stops the parse for blind signing brings no further rows and changes no register |
| `FieldSort.SortedIsStableSort` | src/xrp/field_sort.c:24-38 | The specification is sorted and keeps the order within each score |
| `FieldSort.SortedInFigures` | src/xrp/field_sort.c:24-38 | UINT16 2 first, then ACCOUNT 1 outside of arrays, then all other rows |
| `FieldSort.StableSortIsUnique` | src/xrp/field_sort.c:47-61 | It is the only sorted arrangement that does |
| `FieldSort.SortedIsPermutation` | src/xrp/field_sort.c:40-61 | Nothing is lost or invented |
| `FieldSort.SwapLowersDisorder` | src/xrp/field_sort.c:52-56 | Swapping an out-of-order pair lowers the termination measure |
| `FieldSort.SwapKeepsGroups` | src/xrp/field_sort.c:40-45 | Swapping neighbours of different score keeps each score's order |
| `SessionSafety.EverySignatureIsReviewed` | src/apdu/messages/sign_transaction.c:36-285 | In every run, a signed message is 53 54 58 00 and the contents of one upload, or 53 4D 54 00, the contents and the signer's key hash exactly if an empty signing key filed at top level was read; the contents are the transaction parsed for review, path and curve those its first packet names, byte by byte; approved on screen right after, or accepted for a swap |
| `SessionSafety.BlindNeedsPermission` | src/transaction/transaction.c:189-214 | Outside of a swap, what is signed in spite of a warning was uploaded after the user had allowed that and not taken it back |
| `SessionSpec.MessageInBytes` | src/apdu/messages/sign_transaction.c:36-98 | The signed message byte by byte |
| `SessionSpec.PathIsRead` | src/xrp/xrp_helpers.c:163-182 | Each number of the path is its four bytes, the most significant first |
| `SessionFigures.RefusedPackets` | src/apdu/entry.c:32-56 | Which packets are answered 6E00, 6A80, 6A81 and 6B00, and that they change nothing |
| `SessionFigures.AnsweredPackets` | src/apdu/messages/sign_transaction.c:209-271 | Which packets are answered 6700, 9000, 6800 and the parser's code, 6985, by a review or a signature, and what is left of the transaction |
| `SessionFigures.UserAnswers` | src/apdu/messages/sign_transaction.c:52-162 | What approving, rejecting and a truncated packet lead to |
| `SessionSafety.EachUploadIsSignedOnce` | src/apdu/messages/sign_transaction.c:123-142 | What a later signature covers began to come in only after the earlier signature was given |
| `SessionSafety.NothingComesBetween` | src/apdu/entry.c:37-41 | From the first packet of an upload to the approval that signs it there is no packet of another instruction, no truncated packet and no other answer |
| `SessionSafety.SwapSignsOnce` | src/transaction/transaction.c:194-201 | A run of the app gives an exchange at most one signature |
| `SessionSafety.SwapSignatureIsTheApprovedPayment` | src/transaction/transaction.c:103-214 | A signature given for an exchange covers a fully read transaction of type Payment, without warning, whose six rows show the approved drops, the approved fee and the only account with the approved address |
| `OwnRows.SwapRowsAreOwn` | src/transaction/transaction.c:60-88 | For all accepted bytes: the six rows are all outermost exactly if they are filed at top level and none strays |
| `OwnFields.SwapRowsAreTopLevel` | src/transaction/transaction.c:60-88 | For all accepted transactions: the six rows are filed at top level exactly if no field files one inside; so it is if no object, array or path set shows a row, and without arrays in arrays only then |
| `NestedSwaps.NestedSwapIsAccepted` | src/transaction/transaction.c:60-187 | A Payment with tag, amount, fee and destination all inside an object, or all hidden in an array, is parsed without warning and accepted; in the array they are even filed at top level |
| `HonestRun.NestedSwapIsSigned` | src/transaction/transaction.c:189-214 | Sent in one packet, each of the two is signed at once |
| `SessionSafety.ReceivingIsUploaded` | src/apdu/messages/sign_transaction.c:209-235 | What is being received is one upload in packet order and leaves room for the prefix |
| `SessionSafety.ReviewingIsCompleted` | src/apdu/messages/sign_transaction.c:236-270 | What is under review was uploaded in one go, parsed, fits with its suffix, was allowed if blind, and nothing was taken in or signed since |
| `SessionSafety.PacketStep` | src/apdu/messages/sign_transaction.c:168-271 | A packet is taken in and asks for more, completes its upload, or gets the session nowhere |
| `HonestRun.ApprovedUploadIsSigned` | src/apdu/messages/sign_transaction.c:168-285 | Behind any run that leaves the app idle, for every path of one to ten 32-bit numbers, and however a transaction is cut into packets: if it can be shown, with a warning only where that is allowed, approving it yields the signature of prefix and transaction (and key hash), for those numbers and that curve |
| `HonestRun.PathReadsBack` | src/xrp/xrp_helpers.c:163-182 | The numbers of a path read back from their bytes, whatever stands behind them |
| `HonestRun.TransactionIsSigned` | src/apdu/messages/sign_transaction.c:218-271 | From fields to signature, for every transaction that can be shown: serialization, packets and parser in between |
| `HonestRun.PacketIsReceived` | src/apdu/messages/sign_transaction.c:209-235 | A well-formed packet extends the upload by exactly its content |
| `Swap.AcceptedSwapIsTheApprovedOne` | src/transaction/transaction.c:103-184 | In figures: the six rows are type 0, Account, DestinationTag, Amount, Fee and Destination; amount and fee are 2^62 and the approved drops; the tag is the number its numeral denotes; no other account has the approved address |
| `Swap.SwapNeedsNoBlindSigning` | src/transaction/transaction.c:103-196 | An accepted transaction was read to its last byte and would have been shown without a warning |
| `Address.AddressNamesOneAccount` | src/xrp/xrp_helpers.c:99-143 | Equal addresses have equal version and account |
| `Address.AddressHolds` | src/xrp/xrp_helpers.c:99-143 | An address decodes to version, account and the first four bytes of the digest of the digest of both |
| `Base58.DecodeEncode` | src/xrp/xrp_helpers.c:38-81 | Decoding the text gives the bytes back |
| `Base58.EncodeInjective` | src/xrp/xrp_helpers.c:38-81 | Different bytes have different texts |
| `Base58.EncodeDecode` | src/xrp/xrp_helpers.c:38-81 | Every text over the alphabet is the encoding of what it decodes to |
| `Base58.TextDenotesBytes` | src/xrp/xrp_helpers.c:32-81 | Read in the ledger's alphabet, the text has the value of the bytes |
| `Base58.EncodeLeadingZeros` | src/xrp/xrp_helpers.c:47-49 | The text has one 'r' per leading zero byte and no redundant digit behind them |
| `Base58.EstimateSuffices` | src/xrp/xrp_helpers.c:51-51 | 256^n < 58^(n*138/100+1) for every n |
| `Base58.SweepIsExact` | src/xrp/xrp_helpers.c:54-64 | The early exit never loses a carry |
| `Base58.SweepStops` | src/xrp/xrp_helpers.c:54-64 | The sweep stops at most two digits further left, never off the left end, with zeros left of it |
| `Base58.SweepConverts` | src/xrp/xrp_helpers.c:53-65 | After each byte the buffer's base-58 value is the base-256 value read so far, and all digits left of the stop are zero |
| `IssuedAmount.IssuedTextDenotes` | src/xrp/amount.c:68-126 | The text denotes exactly sign, mantissa times ten to the exponent |
| `IssuedAmount.IssuedTextIsTrimmed` | src/xrp/amount.c:37-42 | It has no trailing fractional zero, whatever its sign |
| `IssuedAmount.IssuedTextStartsPlain` | src/xrp/amount.c:68-126 | It has no superfluous leading zero, and a minus sign exactly if negative |
| `IssuedAmount.IssuedTextFits` | src/xrp/amount.c:68-74 | It has at most 99 characters |
| `IssuedAmount.LongestText` | src/xrp/amount.c:68-74 | 99 is reached |
| `IssuedAmount.ReadBackIssuedText` | src/xrp/amount.c:68-126 | Sign, exponent and mantissa can be read back from the text |
| `XrpAmount.NativeTextDenotes` | src/xrp/xrp_helpers.c:262-295 | Behind "XRP " stands the amount in millionths, trimmed exactly if positive |
| `XrpAmount.NativeTextInjective` | src/xrp/xrp_helpers.c:262-295 | Different amounts have different texts |
| `XrpAmount.ZeroDropsText` | src/xrp/xrp_helpers.c:262-295 | Zero reads "XRP 0.000000" |
| `XrpAmount.NativeTextStartsPlain` | src/xrp/xrp_helpers.c:193-256 | It has no superfluous leading zero |
| `XrpAmount.AdjustedDenotes` | src/xrp/xrp_helpers.c:193-256 | The text denotes the digits times ten to minus the decimals |
| `XrpAmount.AdjustedIsTrimmed` | src/xrp/xrp_helpers.c:240-254 | It is trimmed if the number is positive |
| `XrpAmount.RoomInAmountBuffer` | src/xrp/xrp_helpers.c:281-286 | 21 characters always suffice, and 19 digits need them |
| `Amount.TokenAmountText` | src/xrp/amount.c:68-298 | Every sign, exponent and mantissa the bits can hold: from -96 to 80 and 10^15 to 10^16-1 shown as ticker and exact text, the two spellings of zero as 0, all others as invalid |
| `Amount.NativeAmountText` | src/xrp/amount.c:128-139 | Every native amount on the wire is shown as its exact text |
| `Amount.NativeAmountInFigures` | src/xrp/amount.c:128-139 | Eight bytes with the top bit clear are drops from 2^62 on, and invalid below |
| `AmountsAlike.AmountsReadAlike` | src/xrp/amount.c:281-298 | Two amount fields of one length read alike exactly if neither has a text or they are the same amount: to the drop, or in sign, mantissa and exponent, all zeros being one, and in ticker |
| `AmountsAlike.TwoValuesReadAlike` | src/xrp/amount.c:251-298 | Two spellings of zero, and two values out of range, that read alike |
| `Amount.NativeAmountIsShown` | src/xrp/amount.c:128-139 | With the top bit clear and the next set, formatting never fails |
| `Amount.TokenAmountFields` | src/xrp/amount.c:251-279 | Sign, exponent and mantissa are taken from the right bits |
| `Currency.StandardTextIsHonest` | src/xrp/amount.c:216-226 | The text reads XRP only for the all-zero code, and equal texts mean equal codes |
| `Currency.StandardTextReads` | src/xrp/amount.c:216-226 | XRP for zeros, three characters for a standard code, nothing for others |
| `Currency.StandardInFigures` | src/xrp/amount.c:163-180 | A standard code byte by byte |
| `Currency.TickerCharsInFigures` | src/xrp/amount.c:155-161 | The characters of tickers by their codes |
| `Currency.ValidInFigures` | src/xrp/amount.c:185-214 | What is refused, and what has a row of its own, byte by byte |
| `CurrencyText.TextTellsCode` | src/xrp/amount.c:228-249 | Two codes have the same text exactly if they are equal or one spells the ticker of the other |
| `CurrencyText.TwoCodesReadUsd` | src/xrp/amount.c:228-249 | The standard code of USD and another one that both read USD |
| `CurrencyText.CodeTextReads` | src/xrp/amount.c:228-249 | What the text of each kind of code is |
| `CurrencyText.PlainInFigures` | src/xrp/amount.c:228-249 | Which codes are shown as characters, byte by byte |
| `CurrencyText.HexTextReads` | src/xrp/readers.c:35-44 | Read in base 16, the digits have the value of the bytes |
| `Calendar.BeforeIffEarlier` | src/xrp/time.c:107-124 | Dates are ordered as their second counts are |
| `Calendar.YearsInFigures` | src/xrp/time.c:67-125 | The years counted from 2000, leap years by the Gregorian rule |
| `Calendar.MonthsInFigures` | src/xrp/time.c:67-125 | The lengths of the months |
| `Calendar.SecondsInFigures` | src/xrp/time.c:67-125 | Seconds are counted from the beginning of 2000 |
| `TimeText.TextTellsTime` | src/xrp/time.c:127-131 | The text determines date and time of day, whatever the length of the year |
| `TimeText.TextReads` | src/xrp/time.c:127-131 | Read as numerals, the groups of the text are year, month, day, hour, minute and second |
| `TimeText.EqualTextsAreEqualTimes` | src/xrp/time.c:133-140 | Two times have the same text exactly if they are the same second |
| `FlagFields.AccountSetTextTells` | src/xrp/flags.c:114-181 | In AccountSet, the text of SetFlag and ClearFlag determines the value, known or not |
| `FlagFields.FieldTextsAlike` | src/xrp/flags.c:395-443 | For every type and field code, two values read alike exactly if they are equal (SetFlag and ClearFlag of AccountSet) or agree on the bits the type has labels for (all else) |
| `FlagFields.NoLabelsReadUnsupported` | src/xrp/flags.c:438-442 | No list of labels reads like the text for a value without any |
| `FlagFigures.AccountSetReads` | src/xrp/flags.c:73-112 | What each single bit reads |
| `FlagFigures.OfferCreateReads` | src/xrp/flags.c:183-209 | What each single bit reads |
| `FlagFigures.PaymentReads` | src/xrp/flags.c:211-232 | What each single bit reads |
| `FlagFigures.TrustSetReads` | src/xrp/flags.c:234-266 | What each single bit reads |
| `FlagFigures.PaymentChannelClaimReads` | src/xrp/flags.c:268-284 | What each single bit reads |
| `FlagFigures.NftokenMintReads` | src/xrp/flags.c:286-313 | What each single bit reads |
| `FlagFigures.NftokenCreateOfferReads` | src/xrp/flags.c:315-325 | What each single bit reads |
| `FlagFigures.AmmDepositReads` | src/xrp/flags.c:346-367 | What each single bit reads |
| `FlagFigures.AmmWithdrawReads` | src/xrp/flags.c:369-393 | What each single bit reads |
| `FlagFigures.LabelsAreJoined` | src/xrp/flags.c:46-71 | Two labels stand in table order with a comma and a space between them |
| `FlagFigures.AccountSetNamesRead` | src/xrp/flags.c:114-181 | What each number of SetFlag and ClearFlag reads |
| `FlagFigures.FallbackTexts` | src/xrp/flags.c:424-442 | The texts without a label and without a table |
| `FlagReviews.ShownFlagsReadAlike` | src/xrp/xrp_parse.c:717-729 | Flags inside an object, and Flags of a type without formatter, are shown without a warning, and with the same text if they agree on the labelled bits |
| `FlagReviews.TwoFlagsReadAlike` | src/xrp/xrp_parse.c:717-729 | Such values: 0x20001 and 0x20000 in an object of a Payment, and any two in an EscrowCreate |
| `Flags.FlagTextInjective` | src/xrp/flags.c:73-393 | Without unknown bits the text determines the flags but for the canonical-signature bit |
| `Flags.VisibleFlagsHaveText` | src/xrp/flags.c:36-44 | A value that is not hidden and has no unknown bit has at least one label |
| `Flags.MaskIsTable` | src/xrp/flags.c:445-482 | The mask of known bits is exactly the label table: no label stands for an unknown bit, and values without unknown bits that agree on the labels agree but for the canonical-signature bit |
| `Flags.JoinInjective` | src/xrp/flags.c:51-71 | The joined text determines the list of labels |
| `Parser.ParseContext.constructor` | src/xrp/xrp_parse.c:677-682 | A fresh context: nothing read, no rows |
| `Parser.ParseContext.HasData` | src/xrp/xrp_parse.c:42-44 | In 32-bit arithmetic the test is right except for zero bytes at offset 0 |
| `Parser.ParseContext.AdvancePosition` | src/xrp/xrp_parse.c:142-153 | Moves the cursor exactly if the bytes are there |
| `Parser.ParseContext.ReadNextByte` | src/xrp/xrp_parse.c:155-166 | The next byte, or the overflow error at the end |
| `Parser.ParseContext.PeekNextByte` | src/xrp/xrp_parse.c:168-179 | The same without moving |
| `Parser.ParseContext.AppendNewField` | src/xrp/xrp_parse.c:181-203 | A fresh row with the current array position and depth behind the others, or the error of a full table |
| `Parser.ParseContext.RemoveLastField` | src/xrp/xrp_parse.c:205-227 | Takes back the last row exactly if it is the one meant |
| `Parser.ParseContext.ReadFixedSizeField` | src/xrp/xrp_parse.c:229-235 | The row points at the bytes; the cursor moves behind them if they are there |
| `Parser.ParseContext.ReadVlLength` | src/xrp/xrp_parse.c:237-262 | Length and cursor, or the error, of the specification |
| `Parser.ParseContext.ReadVariableLengthField` | src/xrp/xrp_parse.c:264-271 | Fills the row as specified for a length-prefixed value |
| `Parser.ParseContext.ReadNumber` | src/xrp/xrp_parse.c:509-523 | Fills the row with the big-endian number |
| `Parser.ParseContext.ReadAmount` | src/xrp/xrp_parse.c:273-310 | Table, cursor and error exactly as specified for both amount formats |
| `Parser.ParseContext.ReadVector256Field` | src/xrp/xrp_parse.c:312-356 | The loop appends exactly the specified entries |
| `Parser.ParseContext.ReadIssue` | src/xrp/xrp_parse.c:358-379 | Table, cursor and error exactly as specified |
| `Parser.ParseContext.HandleArrayField` | src/xrp/xrp_parse.c:381-391 | Registers after an array marker |
| `Parser.ParseContext.HandleObjectField` | src/xrp/xrp_parse.c:393-412 | Registers after an object marker, or the error of a ninth object |
| `Parser.ParseContext.HandlePathStep` | src/xrp/xrp_parse.c:414-448 | One or two rows for a step, as specified for its kind |
| `Parser.ParseContext.HandlePathField` | src/xrp/xrp_parse.c:450-492 | Separator, end mark or step, as specified |
| `Parser.ParseContext.HandlePathSetField` | src/xrp/xrp_parse.c:494-502 | A path set starts at path 1, step 1 |
| `Parser.ParseContext.ReadFieldHeader` | src/xrp/xrp_parse.c:561-592 | Type and field code into the row, cursor behind the header |
| `Parser.ParseContext.ReadFieldValue` | src/xrp/xrp_parse.c:504-559 | Dispatch on the type, as specified |
| `Parser.ParseContext.PostProcessField` | src/xrp/xrp_parse.c:594-645 | Records the type or the empty key, rejects accounts of the wrong size, stops for a nested or second type |
| `Parser.ParseContext.ReadField` | src/xrp/xrp_parse.c:664-675 | Value and post-processing together |
| `Parser.ParseContext.ParseNext` | src/xrp/xrp_parse.c:690-698 | One iteration of the loop is one item of the specification |
| `Parser.ParseContext.ParseLoopInPlace` | src/xrp/xrp_parse.c:684-699 | The loop terminates and leaves table, registers and error of the specified run |
| `Parser.ParseContext.FindField` | src/xrp/xrp_parse.c:46-64 | Whether a row of the type and code is there, at top level if asked |
| `Parser.ParseContext.FindTopLevelFlagsValue` | src/xrp/xrp_parse.c:74-93 | Whether there is one top-level Flags row or several, and its value |
| `Parser.ParseContext.PostProcessTransaction` | src/xrp/xrp_parse.c:647-662 | Appends the row of a removed regular key exactly when it is needed |
| `Parser.ParseContext.ConcludeInPlace` | src/xrp/xrp_parse.c:703-744 | The final checks: order, verdict and error as specified |
| `Parser.ParseContext.ParseTransaction` | src/xrp/xrp_parse.c:677-750 | The whole parse computes the specified outcome in place |
| `FieldSort.SortFields` | src/xrp/field_sort.c:47-61 | Terminates and leaves the stable sort by score; other slots untouched |
| `Session.SigningSession.constructor` | src/apdu/global.c:27-29 | The session starts in the initial state of the state machine |
| `Session.SigningSession.ResetTransactionContext` | src/apdu/global.c:30-39 | Back to idle, with the buffer zeroed |
| `Session.SigningSession.SignTransaction` | src/apdu/messages/sign_transaction.c:52-142 | Takes the signing step of the state machine; resets whatever happens |
| `Session.SigningSession.FinishMessage` | src/apdu/messages/sign_transaction.c:80-98 | The buffer that gets signed is prefix, transaction and suffix |
| `Session.SigningSession.RejectTransaction` | src/apdu/messages/sign_transaction.c:144-162 | Takes the rejecting step |
| `Session.SigningSession.ReviewTransaction` | src/transaction/transaction.c:189-214 | Shows, signs or refuses as the state machine does |
| `Session.SigningSession.OpenUpload` | src/apdu/messages/sign_transaction.c:174-204 | Path and curve of the first packet, or the error |
| `Session.SigningSession.HandleFirstPacket` | src/apdu/messages/sign_transaction.c:168-207 | The step for a first packet |
| `Session.SigningSession.HandlePacketContent` | src/apdu/messages/sign_transaction.c:218-235 | Appends the content behind what is there; the 16-bit total never wraps |
| `Session.SigningSession.FinishUpload` | src/apdu/messages/sign_transaction.c:236-270 | Parses the stored bytes in place and leads to the specified outcome |
| `Session.SigningSession.HandleSign` | src/apdu/messages/sign_transaction.c:273-285 | Dispatch on the session state |
| `Session.SigningSession.HandleApdu` | src/apdu/entry.c:32-56 | A packet of another instruction resets the session first |
| `Session.SigningSession.Handle` | src/app_main.c:46-73 | Every event takes exactly the step of the state machine |
| `Session.ParseBip32Path` | src/xrp/xrp_helpers.c:163-182 | The path's numbers, exactly if its length is 1 to 10 and the bytes are there |
| `Swap.CheckSwapConditions` | src/transaction/transaction.c:103-187 | Accepts exactly the six-row payments of the approved drops, fee, tag numeral and address, if the hashes can be computed |
| `Swap.CheckField` | src/transaction/transaction.c:60-88 | Accepts exactly a row of the type and code and, if asked, of the value (a number, or an eight-byte amount); never for a type without a comparison |
| `Swap.CheckDrops` | src/transaction/transaction.c:142-162 | Accepts exactly the native amount of the approved drops, whatever bits the approved number has |
| `Address.ToAddress` | src/xrp/xrp_helpers.c:99-143 | Returns 0 exactly if not exactly one of key and account is given or a hash it needs fails; otherwise writes the address |
| `Base58.EncodeAddress` | src/xrp/xrp_helpers.c:38-81 | Writes the encoding in place, in fewer than 41 characters |
| `Base58.ConvertInPlace` | src/xrp/xrp_helpers.c:51-65 | The digits left in the buffer have the value of the bytes |
| `Base58.SweepInPlace` | src/xrp/xrp_helpers.c:54-64 | One sweep with early exit does what the specification of a sweep does |
| `Base58.WriteText` | src/xrp/xrp_helpers.c:67-80 | Skips leading zeros and writes the characters |
| `IssuedAmount.ParseDecimalNumber` | src/xrp/amount.c:68-126 | Succeeds exactly for buffers of 100 characters and canonical values, and writes the specified text in place |
| `IssuedAmount.Normalize` | src/xrp/amount.c:37-42 | Moves trailing zeros into the exponent |
| `IssuedAmount.PlacePoint` | src/xrp/amount.c:104-125 | Inserts point and zeros in place |
| `PrintNumber.PrintUint64` | src/xrp/amount.c:44-66 | Writes the numeral, failing exactly if it does not fit |
| `PrintNumber.NumeralSize` | src/xrp/amount.c:45-51 | Counts the digits; the power of ten never overflows below 10^19 |
| `XrpAmount.PrintAmount` | src/xrp/xrp_helpers.c:262-295 | Fails exactly from 10^19 on or if the target is too short; otherwise writes the text and pads it |
| `XrpAmount.AdjustDecimals` | src/xrp/xrp_helpers.c:193-256 | Writes the shifted, trimmed text in place, exactly if there is room |
| `XrpAmount.TrimZeros` | src/xrp/xrp_helpers.c:240-254 | Cuts the trailing zeros of the fraction, and the point with them |
| `XrpAmount.CountDigits` | src/xrp/xrp_helpers.c:264-272 | Gives up exactly at 10^19, before the power of ten overflows |
| `Amount.FormatAmount` | src/xrp/amount.c:281-298 | The text shown for an amount field, error text included |
| `Amount.ReadUnsigned64` | src/xrp/readers.c:23-31 | The big-endian number of eight bytes |
| `Amount.FormatXrp` | src/xrp/amount.c:128-139 | Refuses negative amounts and writes the native text |
| `Amount.FormatIssuedCurrency` | src/xrp/amount.c:251-279 | Appends the number behind the ticker, or fails |
| `Currency.CheckStandard` | src/xrp/amount.c:163-180 | Standard shape, allowed characters, not the reserved ticker |
| `Currency.CheckValid` | src/xrp/amount.c:185-205 | Refuses only the reserved ticker in standard shape |
| `Currency.CheckNonStandard` | src/xrp/amount.c:207-214 | Neither standard nor all zero |
| `Currency.CheckAllZeros` | src/xrp/amount.c:141-149 | Whether all bytes are zero |
| `CurrencyText.FormatNonStandardCurrency` | src/xrp/amount.c:228-249 | Writes that text: plain, hexadecimal, ticker or XRP |
| `CurrencyText.CheckPurelyAscii` | src/xrp/ascii_strings.c:21-41 | Printable characters, with only zeros behind them if a suffix is allowed |
| `CurrencyText.ReadHex` | src/xrp/readers.c:35-44 | Writes the digits in place, and says whether all fit |
| `Calendar.RippleEpochToTm` | src/xrp/time.c:67-125 | A valid Gregorian date and time whose independently defined second count is the input; accepts every 32-bit time |
| `TimeText.PrintTime` | src/xrp/time.c:127-131 | The buffer holds the text of the date |
| `TimeText.FormatTime` | src/xrp/time.c:133-140 | The buffer holds the text of the date whose second count is the value, for every 32-bit value |
| `FlagFields.FormatFlags` | src/xrp/flags.c:395-443 | The text of Flags, SetFlag or ClearFlag for every transaction type, fallback texts included |
| `Flags.FormatTypeFlags` | src/xrp/flags.c:395-443 | For a type with a formatter, the labels of the set bits, or the text for an unsupported value |
| `Flags.AppendItem` | src/xrp/flags.c:46-71 | Appends separator and label, or replaces everything by the error text if there is no room |
| `Flags.AppendFlag` | src/xrp/flags.c:73-112 | Appends the label exactly if the bit is set; within 128 characters the error text is never written |
| `Flags.FormatAccountSetTransactionFlags` | src/xrp/flags.c:73-112 | The labels of AccountSet |
| `Flags.FormatOfferCreateFlags` | src/xrp/flags.c:183-209 | The labels of OfferCreate |
| `Flags.FormatPaymentFlags` | src/xrp/flags.c:211-232 | The labels of Payment |
| `Flags.FormatTrustSetFlags` | src/xrp/flags.c:234-266 | The labels of TrustSet |
| `Flags.FormatPaymentChannelClaimFlags` | src/xrp/flags.c:268-284 | The labels of PaymentChannelClaim |
| `Flags.FormatNftokenMintFlags` | src/xrp/flags.c:286-313 | The labels of NFTokenMint |
| `Flags.FormatNftokenCreateOfferFlags` | src/xrp/flags.c:315-325 | The label of NFTokenCreateOffer |
| `Flags.FormatAmmDepositFlags` | src/xrp/flags.c:346-367 | The labels of AMMDeposit |
| `Flags.FormatAmmWithdrawFlags` | src/xrp/flags.c:369-393 | The labels of AMMWithdraw |

## Left out

- Byte sequences that serialize no transaction (cut short, with length prefixes above 240 or path steps of an unknown kind): what holds of them is stated for all bytes, in `Conservation`, `Outermost`, `OwnRows` and `SigningKey`.
- Calendar.RippleEpochToTm: works on unbounded integers; the source's `long long` and `int` are wide enough for the 32-bit times its callers pass, and the overflow of `years` near the extremes is not modelled.
- Session.SigningSession.SignTransaction: key derivation and both signature algorithms are outside the model; a signature is represented by the message, path and curve it is given for, and an event says whether the device's calls succeed.
- Session.SigningSession.ResetTransactionContext: does not model the strings prepared for the screen, which it also clears.
- Pointers and the data union: a pointer is an offset into the transaction, the union a datatype; aliasing between context, result and buffer is not modelled.
- The error codes of the device's SDK are taken from `unit-tests/include/os.h`.
- `handle_get_public_key`, the app configuration reply, the transport loop and the idle menu: for the session they matter only as another instruction, which resets it.
- User interface: represented by the events approve and reject and by the blind-signing setting.
- Field and transaction names: only which (type, code) pairs have a name.
- `percentage.c` and the formatters of 8-bit, 16-bit, hash, account and time-delta values: easy members.
- `snprintf` and `strstr` are represented by the text they format and by containment of one text in another.
- `src/swap`: copying the approved parameters and answering the exchange; the approval is a parameter.
- Compression of public keys: the hash of the signer's key is a parameter.
