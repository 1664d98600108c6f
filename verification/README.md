# chasquid, verified models

Dafny models of the parts of the chasquid SMTP server where mail can be lost, forged, downgraded or sent to the wrong
place, with proofs of what those parts promise. `dafny verify dfyconfig.toml` checks everything.

Text is a `string` in which a character stands for a byte; case folding is ASCII. Code that loops over locals or changes
fields is a method or a class proved against a specification function; concurrent code is a system of steps over values,
and the theorems quantify over every run of it.

| files | what they model |
|---|---|
| `Text`, `Base64` | the string functions of the standard library that the code uses, and base64 |
| `Message`, `Canonical`, `CanonicalHeader`, `CanonicalBody`, `Tags` | parsing of messages, canonical forms and tag lists (sections 3.2 and 3.4 of RFC 6376) |
| `Signing`, `SigText`, `Selection`, `Verifying` | writing and verifying DKIM signatures (sections 3.7, 5.4 and 6.1 of RFC 6376) |
| `SigMeaning`, `VerifyTheorems` | which signatures are accepted, and what an accepted one vouches for |
| `BTag`, `SigReading`, `SigCanonical`, `SignedSelection`, `DkimRoundTrip`, `DkimLimits` | what signing and verifying do to each other |
| `Crlf`, `ServerSigning` | line ends, added headers, and the signatures the server adds |
| `DotReader`, `DotStuffing`, `Session` | the receiving side: the end of data (section 4.5.2 of RFC 5321) and the commands |
| `AliasClean`, `AliasResolve`, `AliasRight`, `AliasFile`, `AliasMeaning` | aliases: cleaning of addresses, expansion, right sides, the alias file |
| `DomainInfo`, `Sts`, `Courier` | security levels per domain, MTA-STS policies (RFC 8461), outgoing delivery |
| `SafeIO`, `StsCache` | atomic file writes and the policy cache |
| `QueueLog`, `Queue`, `QueueSafety`, `QueueTheorems`, `Retry` | the mail queue and its retry schedule |
| `TraceBuffer`, `AllEvents` | the events of traces |

## Where the code falls short

- With ideal cryptography, a signature by `Sign` verifies on a message exactly when the message has an empty line
  between header and body and the canonical instances of every signed name read the same in both directions
  (`DkimRoundTrip.RoundTrip`): `Sign` hashes repeated fields from the top, verification from the bottom.
  `DkimLimits.TwoToFieldsFail` and `DkimLimits.NoEmptyLineFails` are messages on which, with ideal cryptography, every
  signature is rejected.
- `relaxBody` is idempotent exactly on bodies that are empty or do not stop in white space
  (`CanonicalBody.RelaxBodyIdempotent`).
- A message is recovered from its parsed form exactly when the line break that ends the empty line is there
  (`Message.Lossless`); without it two messages parse alike (`Message.ForgetsLastBreak`).
- A recipient whose delivery was settled becomes pending again, and can be handed over again, exactly when the server
  crashes before the item has been saved since (`QueueTheorems.PendingAgainIff`). The write may have failed
  (`QueueTheorems.LostSaveRedelivers`) or not have happened yet (`QueueTheorems.CrashRedelivers`).
- After a reload or restart the answers about security levels are right exactly when the level at the last successful
  write of the domain is still the highest one allowed since it was cleared (`DomainInfo.RightAfterReload`). A failed
  write can forget a level (`DomainInfo.ForgetsUnsavedLevel`) or bring a cleared one back
  (`DomainInfo.RevivesClearedLevel`).
- A new event of a trace is shown last exactly when the ring has not been started or the head is full
  (`TraceBuffer.Trace.Append`), which raising the maximum can undo (`TraceBuffer.RaisedMaximumReorders`). Lowering it
  shows more than the new maximum (`TraceBuffer.LoweredMaximumShowsMore`); `TraceBuffer.ShownSize` has the exact size.

## Model

| member | source | states |
|---|---|---|
| `Message.ParseMessage` | internal/dkim/message.go:34-64 | the loop that extends the last header in place parses a message into its fields and body, or the error of the first bad line |
| `Message.FindAll` | internal/dkim/message.go:18-26 | finds the fields with a name, ignoring case, in order |
| `Message.Lossless` | internal/dkim/message.go:34-77 | field sources, an empty line and the body give the message back exactly when the empty line is terminated; otherwise one CRLF is added |
| `Message.ForgetsLastBreak` | internal/dkim/message.go:34-64 | the family of messages that parsing confuses |
| `Message.ParsePrepended` | internal/dkim/message.go:34-77 | a folded field put in front is parsed as exactly one more header; the body is the same exactly when there is an empty line |
| `Canonical.RefoldingIsInvisible` | internal/dkim/canonicalize.go:119-147 | exchanging one run of folding white space for any other, anywhere in a value, does not change its relaxed form |
| `Canonical.RelaxedFieldFixed` | internal/dkim/canonicalize.go:119-147 | relaxHeader is idempotent on parsed headers and gives a single line |
| `CanonicalHeader.RelaxHeaderMeaning` | internal/dkim/canonicalize.go:119-147 | for every parsed header: the value becomes its words, the stretches between folding white space, with one space between them and none around them; the name becomes its lower case without the white space at its end |
| `CanonicalHeader.SameWords` | internal/dkim/canonicalize.go:119-147 | a value has only one such list of words |
| `Canonical.ParsedWellFolded` | internal/dkim/message.go:34-77 | every parsed header is a name without line breaks and a value that is only broken before white space |
| `CanonicalBody.SimpleBodyMeaning` | internal/dkim/canonicalize.go:77-89 | all line breaks at the end of the body become exactly one, and doing it twice changes nothing |
| `CanonicalBody.RelaxBodyMeaning` | internal/dkim/canonicalize.go:105-117 | on bodies that end with CRLF, relaxBody is the definition of section 3.4.4 of RFC 6376 line by line; all-blank bodies become one CRLF |
| `CanonicalBody.RelaxBodyPartial` | internal/dkim/canonicalize.go:105-117 | on a body that stops inside a line, that line keeps its trailing white space, squeezed |
| `CanonicalBody.RelaxBodyIdempotent` | internal/dkim/canonicalize.go:105-117 | the exact bodies on which relaxBody is idempotent |
| `CanonicalBody.RelaxBodyVisible` | internal/dkim/canonicalize.go:105-117 | nothing but white space is changed |
| `Tags.ParseTagList` | internal/dkim/header.go:309-341 | the loop that fills the map reads a tag list, or reports a bad or repeated tag |
| `Tags.ParsePrinted` | internal/dkim/header.go:309-341 | a printed tag list reads back as its tags with trimmed values, whatever white space surrounds them |
| `SigMeaning.TagListMeaning` | internal/dkim/header.go:309-341 | exactly the lists of named tags, no name twice, are accepted, and they are read as names and values without the white space around them |
| `SigMeaning.SignatureMeaning` | internal/dkim/header.go:73-258 | a signature field is accepted, and read as these values, if and only if its tags are sound: version, algorithm, decodable and non-empty b and bh, canonicalisations, d, s, a list h with From in it, l, q, t and x, and an agent of the domain d or one below it |
| `SigMeaning.TimeMeaning` | internal/dkim/header.go:260-271 | times are the decimal numbers below 2^63 with an optional sign, and not negative |
| `Base64.DecodeMeaning` | internal/dkim/header.go:184-199 | exactly groups of four digits, the last with up to two paddings, are decoded |
| `Base64.DecodedDigits` | internal/dkim/header.go:184-199 | to the octets that are written with these digits |
| `Tags.TimeRoundTrip` | internal/dkim/header.go:260-271 | a printed time reads back |
| `Signing.Sign` | internal/dkim/sign.go:56-133 | the method that grows the signature and the hash input computes the value that the round trip is proved for, or the error |
| `Signing.CountedNames` | internal/dkim/sign.go:74-83 | the loop lists every signed name as often as it occurs |
| `Signing.HashedFields` | internal/dkim/sign.go:96-102 | the loop hashes the canonical fields of every signed name, from the top |
| `Signing.FormatHeaders` | internal/dkim/sign.go:176-198 | the wrapping loop computes the folded list of names |
| `Signing.BreakLongLines` | internal/dkim/sign.go:158-174 | the shrinking loop computes the folded signature |
| `SigText.BrokenLinesFit` | internal/dkim/sign.go:158-174 | no line of the folded signature is longer than the limit and its indentation |
| `SigText.FormatNamesVisible` | internal/dkim/sign.go:176-198 | without white space, the folded list is the lower-cased names joined by colons |
| `SigText.NamesReadBack` | internal/dkim/header.go:153-258 | the folded and indented h= value reads back as the signed names |
| `SigText.SignatureReadsBack` | internal/dkim/header.go:153-258 | the folded and indented b= value decodes to the signature |
| `SigReading.SignatureReads` | internal/dkim/header.go:153-258 | dkimSignatureFromHeader reads from the output of Sign exactly the signature that Sign meant, tag for tag |
| `BTag.EmptyBTagOfSignature` | internal/dkim/verify.go:144-147 | the b= replacement empties that tag and touches nothing else of a signature |
| `SigCanonical.SameSignatureField` | internal/dkim/verify.go:149-262 | the signature field that verification hashes is the one that Sign hashed before b= was known |
| `Selection.HeadersToInclude` | internal/dkim/verify.go:264-304 | the loop with its map of used instances gives every mention of a name the next instance from the bottom |
| `Selection.PicksAreDistinct` | internal/dkim/verify.go:264-304 | no instance of a field is selected twice |
| `Selection.InsertedFieldCounts` | internal/dkim/verify.go:264-304 | an inserted field is selected exactly when its name is mentioned more often than it occurred |
| `SignedSelection.SelectedOnSigned` | internal/dkim/sign.go:74-102 | on the list written by Sign, verification selects the fields that Sign hashed, each group of equal names reversed |
| `SignedSelection.AddedFieldIsSelected` | internal/dkim/sign.go:28-51 | one more From, Subject, Date, To, Cc or Message-ID anywhere makes the selection longer by one |
| `DkimLimits.AddedFieldIsNoticed` | internal/dkim/verify.go:149-304 | such a field changes the text that verification hashes |
| `Verifying.TryKeys` | internal/dkim/verify.go:232-256 | some published key of the right type accepts the signature |
| `Verifying.VerifySignature` | internal/dkim/verify.go:149-262 | the step-by-step verification computes the verdict that the round trip is proved for |
| `VerifyTheorems.VerdictMeaning` | internal/dkim/verify.go:149-262 | a signature is accepted if and only if it is sound, the canonical body up to l= has the hash it names, and a published key of the right type and hash, under its strict rule, accepts the digest of the selected fields and the signature field without its b= value; the verdict is temporary exactly on a temporary lookup error |
| `VerifyTheorems.EmptyBTagMeaning` | internal/dkim/verify.go:144-147 | the b= values are cut at the matches of the expression from left to right, and nothing else is |
| `VerifyTheorems.CoversFrom` | internal/dkim/verify.go:264-304 | an accepted signature names From, and the last From field of the message is among the fields hashed |
| `Verifying.VerifyMessage` | internal/dkim/verify.go:109-142 | counts and collects the verdicts on the first signatures, up to the maximum |
| `DkimRoundTrip.HeaderTextAgrees` | internal/dkim/sign.go:56-133 | both sides hash the same header text if and only if every group of repeated signed fields is symmetric |
| `DkimRoundTrip.BodyAgrees` | internal/dkim/message.go:34-64 | both sides hash the same body if and only if the message has an empty line |
| `DkimRoundTrip.HashInputsAgree` | internal/dkim/verify.go:149-262 | the prepended output of Sign is parsed as one header, reads back, and leads to the same hash inputs under exactly those conditions |
| `DkimRoundTrip.RoundTrip` | internal/dkim/verify.go:149-262 | verification of what Sign wrote succeeds on every message meeting the two conditions, for every key that accepts its own signatures; with ideal cryptography on no other |
| `DkimRoundTrip.VerifyMessageRoundTrip` | internal/dkim/verify.go:109-142 | the same through VerifyMessage: found, valid, and first in the results |
| `DkimRoundTrip.RoundTripWithoutRepeats` | internal/dkim/sign.go:56-133 | messages with an empty line in which no signed name repeats meet the conditions |
| `DkimLimits.DifferentInstancesFail` | internal/dkim/sign.go:96-102 | two different instances of a signed name break the round trip |
| `DkimLimits.FailsToVerify` | internal/dkim/verify.go:149-262 | on every message that does not meet the conditions the hash inputs differ, and with ideal cryptography the verdict is a permanent failure |
| `DkimLimits.TwoToFieldsFail` | internal/dkim/sign.go:96-102 | a message with an empty line on which what verification hashes differs from what Sign hashed, for every signer, and which fails permanently with ideal cryptography |
| `DkimLimits.NoEmptyLineFails` | internal/dkim/message.go:37-63 | the same for a message without an empty line |
| `Crlf.ToCRLF` | internal/normalize/normalize.go:80-107 | the loop over the lines ends each of them with CRLF |
| `Crlf.ToCrlfTwice` | internal/normalize/normalize.go:80-140 | conversion is idempotent |
| `Crlf.ToCrlfAppend` | internal/normalize/normalize.go:80-107 | conversion distributes over a cut after a line break |
| `Crlf.SplitMeaning` | internal/envelope/envelope.go:13-32 | an address is cut at its first "@", and is all user without one |
| `Crlf.AddedHeaderParses` | internal/envelope/envelope.go:45-56 | whatever the value, line breaks included, an added header is parsed as exactly one more field in front, and the body is kept exactly when there is an empty line |
| `ServerSigning.DkimSign` | internal/smtpsrv/conn.go:1018-1052 | the loop over the signers, each signing what the previous ones left |
| `ServerSigning.PrependKeepsVerdict` | internal/smtpsrv/conn.go:1018-1052 | a field that is not signed, such as another signature or a Received field, does not change the verdict on a signature when put in front |
| `ServerSigning.AllSignaturesVerify` | internal/smtpsrv/conn.go:1018-1052 | every signature added by the server verifies on the finished message, for any number of signers |
| `ServerSigning.ServerRoundTrip` | internal/smtpsrv/conn.go:690-713 | with the Received field and those of a hook put in front of the signed message, a receiver counts as many valid signatures as were added, up to its own limit |
| `ServerSigning.ReceivedIsHarmless` | internal/smtpsrv/conn.go:740-794 | Received is neither a signed name nor that of signatures |
| `DotReader.ReadUntilDot` | internal/smtpsrv/dotreader.go:22-111 | the byte loop stops at the first bare CR or LF or after the first single-dot line, whatever the maximum, and stores the data up to it |
| `DotReader.SizeLimit` | internal/smtpsrv/dotreader.go:22-111 | too large exactly when more than the maximum was consumed, the three-byte empty message excepted; what is accepted is whole |
| `DotStuffing.DataMeaning` | internal/smtpsrv/dotreader.go:38-110 | every accepted message is a list of lines, none a single dot, each returned without one leading dot |
| `DotStuffing.ReadLines` | internal/smtpsrv/dotreader.go:38-110 | conversely, such lines followed by the dot are read to exactly that point |
| `DotStuffing.StuffingRoundTrip` | internal/smtpsrv/dotreader.go:38-110 | stuffing, reading and ToCRLF give the lines back and leave what follows unread |
| `Session.Conn.ResetEnvelope` | internal/smtpsrv/conn.go:1209-1215 | forgets the transaction and changes nothing else |
| `Session.Conn.Hello` | internal/smtpsrv/conn.go:355-394 | records the first word as the name, and whether the client greeted with EHLO; keeps transaction, TLS and authentication as they are |
| `Session.Conn.Mail` | internal/smtpsrv/conn.go:432-504 | starts a new transaction with a checked sender, or leaves an empty one |
| `Session.Conn.CheckSender` | internal/smtpsrv/conn.go:432-564 | an accepted sender is the null path, or the address given with its domain normalised, which unless the client has authenticated did not fail SPF and, if SPF passed, had the level of the connection accepted for its domain |
| `Session.SenderMeaning` | internal/smtpsrv/conn.go:432-564 | and every such address is accepted |
| `Session.PrefixMeaning` | internal/smtpsrv/conn.go:432-446 | the keywords of MAIL and RCPT are recognised in either case |
| `Session.Conn.Rcpt` | internal/smtpsrv/conn.go:567-637 | adds a recipient only to a transaction with room for it, under the address it is stored as, if mail may go there |
| `Session.Conn.CheckRecipient` | internal/smtpsrv/conn.go:567-637 | a local recipient is accepted only if the user database knows its normalised address at that moment, any other only after authentication and unchanged |
| `Session.RecipientMeaning` | internal/smtpsrv/conn.go:567-637 | and every such recipient is accepted: if and only if |
| `Session.Conn.Data` | internal/smtpsrv/conn.go:640-738 | hands exactly the current transaction and the data read to the queue, and clears it once the queue took it |
| `Session.Conn.StartTLS` | internal/smtpsrv/conn.go:1092-1135 | turns TLS on once, and forgets the transaction |
| `Session.Conn.Auth` | internal/smtpsrv/conn.go:1138-1207 | authenticates only over TLS and only once, as the user and domain that were decoded |
| `Session.Conn.Handle` | internal/smtpsrv/conn.go:194-352 | handles the commands up to the first that ends the connection and no further: QUIT or HTTP, broken data, the third failure, or a reply that cannot be written; each reply says whether its command failed |
| `Session.AtMostThreeFail` | internal/smtpsrv/conn.go:327-343 | of the commands handled at most three failed, and if three did, the third was the last |
| `Session.SenderNotDowngraded` | internal/smtpsrv/conn.go:537-564 | no downgrade of incoming mail: a sender that passed SPF was accepted at a level, that of the connection, no lower than the one in memory for its domain as written, and if the answers were right, as with successful writes, no lower than every incoming level allowed since its last clear |
| `Session.TranscriptIsProper` | internal/smtpsrv/conn.go:243-343 | for every command sequence, each step was allowed by what came before it, the answers of the databases of users and levels included |
| `Session.CurrentMeaning` | internal/smtpsrv/conn.go:432-637 | the envelope is the last accepted MAIL and the recipients accepted since, with nothing of an earlier transaction |
| `Session.CurrentBounds` | internal/smtpsrv/conn.go:567-637 | at most 101 recipients, recipients only with a sender, senders on submission ports only after authentication |
| `Session.AuthNeedsTls` | internal/smtpsrv/conn.go:1138-1207 | authenticated sessions are encrypted |
| `Session.EveryPutIsSafe` | internal/smtpsrv/conn.go:640-738 | every call of queue.Put has the current transaction only, with 1 to 101 recipients; each was admitted in it, as the normal form that the user database knew of an address of a local domain, or after authentication; with lawful normalisers it is itself an address of a local domain, or the session is authenticated, which it is on submission ports and only over TLS |
| `Session.LowerCaseSite` | internal/normalize/normalize.go:27-60 | lower-casing is a lawful normaliser, if the local domains are in lower case |
| `AliasClean.RemoveAllAfter` | internal/aliases/aliases.go:574-589 | cutting at each separator in turn is cutting at the first of any |
| `AliasClean.RemoveChars` | internal/aliases/aliases.go:592-598 | replacing one character after the other removes them all |
| `AliasClean.RemoveDropCharacters` | internal/aliases/aliases.go:323-346 | the loop drops characters before the first separator and keeps the suffix |
| `AliasClean.RemoveDropsAndSuffix` | internal/aliases/aliases.go:348-354 | drops the suffix as well |
| `AliasClean.CleaningLaws` | internal/aliases/aliases.go:323-354 | both cleaners are idempotent and removing the suffix absorbs an earlier removal of drop characters |
| `AliasClean.KeysAgree` | internal/aliases/aliases.go:186-193 | an address looks up the key that was stored for any spelling of it |
| `AliasClean.InsertedDrop` | internal/aliases/aliases.go:323-346 | a drop character inserted before the first separator is only another spelling |
| `AliasClean.LowerCaseIsLawful` | internal/aliases/aliases.go:323-346 | lower-casing is a normaliser for which these laws hold, unless a separator or drop character is a letter |
| `AliasClean.RewriteMeaning` | internal/queue/queue.go:440-456 | the rewritten sender is the forwarding user at the converted domain, with all of the sender in the suffix, "=" for "@" |
| `AliasClean.RewrittenSenderCleansBack` | internal/queue/queue.go:437-455 | the rewritten sender cleans to the user that forwarded the mail, if "+" is a separator |
| `AliasResolve.ResolveAt` | internal/aliases/aliases.go:208-320 | the recursion, with its error paths, computes the bounded expansion |
| `AliasResolve.ResolveEach` | internal/aliases/aliases.go:283-320 | the loop appends the expansion of each recipient in order and stops at the first error |
| `AliasResolve.OneTree` | internal/aliases/aliases.go:208-320 | an address has at most one expansion tree |
| `AliasResolve.ResolveMeaning` | internal/aliases/aliases.go:208-320 | resolve succeeds exactly when the expansion tree exists and is low enough, and returns its leaves from left to right |
| `AliasResolve.ExpandMeaning` | internal/aliases/aliases.go:186-281 | one step, on the alias map, the hook and the user database: a foreign address stands for itself; an entry of the address comes before one of its cleaned form, and both before the user database; a user without an entry stays as the cleaned address; the catch-all is for unknown users only |
| `AliasResolve.SubstitutedMeaning` | internal/aliases/aliases.go:283-319 | "*" on the right becomes the user being resolved in addresses and forwards, and nothing changes in pipes |
| `AliasResolve.UserKeepsMail` | internal/aliases/aliases.go:244-257 | a user without an alias gets the mail for all its spellings, whatever the catch-all |
| `AliasResolve.HigherLimit` | internal/aliases/aliases.go:208-320 | a higher limit never changes a successful answer |
| `AliasResolve.LimitMeaning` | internal/aliases/aliases.go:208-320 | without lookup errors, resolve fails exactly when some chain of replacements reaches the limit, and with that error |
| `AliasResolve.LoopFails` | internal/aliases/aliases.go:208-320 | an address that leads into a cycle fails whatever the limit |
| `AliasResolve.ResolveAddress` | internal/aliases/aliases.go:151-157 | at the limit of the code: the leaves of the expansion tree if it has at most ten levels, else the recursion error exactly if a chain of ten replacements starts at the address |
| `AliasFile.ParseReader` | internal/aliases/aliases.go:443-483 | the loop over the lines fills the map, or stops at the first line that is malformed on either side |
| `AliasRight.ParseRHS` | internal/aliases/aliases.go:485-540 | the loop over the parts of a right side computes its recipients, or the first error |
| `AliasRight.ParseForward` | internal/aliases/aliases.go:544-570 | the loop over the servers of a forward, with its errors |
| `AliasRight.RightReadsBack` | internal/aliases/aliases.go:485-570 | any list of recipients, forwards with their servers included, written down with commas reads back as itself |
| `AliasMeaning.RightMeaning` | internal/aliases/aliases.go:485-571 | exactly these right sides are accepted: nothing, a command, or a list of addresses, each with a domain added if it has none, and of forwards with their servers |
| `AliasMeaning.LineMeaning` | internal/aliases/aliases.go:443-483 | which lines are aliases, with what on either side, and which are skipped |
| `AliasRight.RightHasDomains` | internal/aliases/aliases.go:485-540 | every recipient that is not a command has the normal form of an address with a domain, and has a domain itself if normalising keeps the "@" |
| `AliasFile.LastLineWins` | internal/aliases/aliases.go:443-483 | the last line for a key decides |
| `AliasFile.EverySpellingFindsTheLine` | internal/aliases/aliases.go:186-206 | what a line says about a user is what lookup returns for every spelling of that user |
| `DomainInfo.DB.SecLevel` | internal/domaininfo/domaininfo.go:93-161 | a level is allowed exactly if it is at least the one in memory, which while the answers are right is every level allowed for that domain and direction since the last clear; memory and store change for that domain only, and as the history says |
| `DomainInfo.DB.Clear` | internal/domaininfo/domaininfo.go:166-184 | resets both levels of a known domain in memory, and in the store if the write succeeds, and those of no other domain |
| `DomainInfo.DB.Reload` | internal/domaininfo/domaininfo.go:47-76 | memory becomes the store |
| `DomainInfo.FloorMeaning` | internal/domaininfo/domaininfo.go:93-161 | the recorded level is the maximum of the levels allowed since the last clear |
| `DomainInfo.RightMeaning` | internal/domaininfo/domaininfo.go:93-161 | the answers for a domain and direction are right for every level if and only if the level in memory is the floor |
| `DomainInfo.RightUntilReload` | internal/domaininfo/domaininfo.go:93-184 | without a reload they are always right |
| `DomainInfo.RightAfterReload` | internal/domaininfo/domaininfo.go:47-76 | after a reload they are right if and only if the level at the last successful write of the domain is the floor |
| `DomainInfo.RightAfterFirstReload` | internal/domaininfo/domaininfo.go:47-76 | for the first reload: if and only if the floor has not changed since that write |
| `DomainInfo.SavedIsRight` | internal/domaininfo/domaininfo.go:78-89 | with successful writes memory and store agree and the answers are right, however often the database is reloaded |
| `DomainInfo.AllowedIsNotLower` | internal/domaininfo/domaininfo.go:93-161 | in every history, an allowed level is no lower than the one in memory, and if the answers are right, no lower than every level allowed since the last clear |
| `DomainInfo.ForgetsUnsavedLevel` | internal/domaininfo/domaininfo.go:78-89 | a failed write and a restart allow plain text again |
| `DomainInfo.RevivesClearedLevel` | internal/domaininfo/domaininfo.go:166-184 | a clear whose write failed and a restart bring the level back |
| `Sts.CheckMeaning` | internal/sts/sts.go:131-156 | the exact valid policies |
| `Sts.AsciiMeaning` | internal/sts/sts.go:308-319 | names are compared without regard to case and a final dot |
| `Sts.MatchDomainMeaning` | internal/sts/sts.go:279-304 | a pattern matches its own name, and with a leading wildcard label the names that have one label in its place |
| `Sts.MXIsAllowed` | internal/sts/sts.go:159-171 | under an enforced policy a host is allowed exactly when some pattern matches it |
| `Courier.AttemptDeliver` | internal/courier/smtp.go:158-259 | two connections if the jump to TLS fails, else one; MAIL is sent exactly if the server was reached, the level is no lower than the known one, and under an enforced policy over TLS with a valid certificate; the level is secure, insecure or plain exactly as the connection was; the message is accepted exactly if all four steps of the transfer are |
| `Courier.LookupMXs` | internal/courier/smtp.go:309-354 | the servers by priority, at most five; the domain itself if it has no MX records; the permanence of errors |
| `Courier.TryServers` | internal/courier/smtp.go:59-142 | the servers that the policy permits are dialled in their order, once each, or twice if the jump to TLS fails, up to the one that accepts the message or refuses it for good, whose reply over that connection is the answer; if none does, all are dialled and the failure is transient |
| `Courier.Deliver` | internal/courier/smtp.go:59-106 | the same for the servers of a domain, and the answers when there are none |
| `Courier.NeverDowngraded` | internal/courier/smtp.go:158-259 | whatever was sent was sent at a level no lower than the one in memory, and if the answers were right, as with successful writes, no lower than every outgoing level allowed for the domain since its last clear |
| `SafeIO.Directory.WriteFile` | internal/safeio/safeio.go:40-83 | success puts data and time in place and changes nothing else; failure changes nothing, but a failed rename leaves the temporary file |
| `SafeIO.OnlyRenameShows` | internal/safeio/safeio.go:40-83 | partial writes, failures and crashes change no visible file |
| `SafeIO.RenameShowsAll` | internal/safeio/safeio.go:71-83 | a rename shows the whole data with its time already set |
| `SafeIO.Atomic` | internal/safeio/safeio.go:40-83 | over every run of any number of concurrent writers with failures and crashes, a visible file is what the last completed write of it asked for |
| `StsCache.HitsAreFresh` | internal/sts/sts.go:372-467 | over every run, each policy returned from the cache passes Check, and a call to store for that domain had it written, before the load read the file and at most its MaxAge before the load began; unless that was during the load, it had not reached the expiry counted from the call |
| `StsCache.FreshEntryIsReturned` | internal/sts/sts.go:372-430 | over every run, a load finds an entry exactly if the last write of the domain has not expired, and then returns the policy that was stored |
| `StsCache.EntriesAreWhole` | internal/sts/sts.go:408-430 | at every moment a cache file is a whole valid policy stored for that domain with the expiry computed for it |
| `StsCache.FailedRefreshKeepsEntry` | internal/sts/sts.go:481-519 | no step short of the rename changes the entry of a domain |
| `QueueSafety.NextKeepsInv` | internal/queue/queue.go:134-389 | every step of Put, Load, SendLoop, sendOneRcpt, sendDSN, Remove and every crash is allowed by the log before it, and keeps files and memory as the log says |
| `QueueTheorems.Durable` | internal/queue/queue.go:165-357 | an item that Put took is on disk until couriers have accepted all recipients, or a DSN about it was on disk, or that DSN was refused, or its sender is null; whatever crashes and whichever status writes fail |
| `QueueTheorems.StatusesAreAnswers` | internal/queue/queue.go:360-389 | a recipient is sent exactly if the answer that is kept is an acceptance, failed exactly if it is a permanent refusal, and else pending, in memory and in the file |
| `QueueTheorems.AnswersAreKept` | internal/queue/queue.go:360-389 | an answer is kept if and only if a courier gave it and the server did not crash before the item was saved |
| `QueueTheorems.RefusalsAreReported` | internal/queue/queue.go:322-357 | before an item is removed, a recipient that no courier has accepted is reported by a DSN on disk, or that DSN was refused, or the sender is null |
| `QueueTheorems.NobodyIsPassedOver` | internal/queue/queue.go:322-347 | when a loop sleeps, every pending recipient was handed over in the round before, and put off by its courier |
| `QueueTheorems.NullSenderNeverBounces` | internal/queue/queue.go:471-504 | DSNs have the null sender and are only about items that have not |
| `QueueLog.NoticesEndThere` | internal/queue/queue.go:349-353 | a DSN is about an item that is not itself a DSN, when some recipient was not reached |
| `QueueTheorems.FileIsPendingOrMemory` | internal/queue/queue.go:301-389 | at every moment the file has a recipient as pending or as memory has it |
| `QueueTheorems.FileAgreesAfterWait` | internal/queue/queue.go:317-347 | after wg.Wait the file is what memory is, if the last write of the item since the last crash succeeded |
| `QueueTheorems.HandedUntilSettled` | internal/queue/queue.go:360-389 | without a crash before the item was saved, a recipient leaves the pending state once and is not handed to a courier after that, in this run or a later one |
| `QueueTheorems.PendingAgainIff` | internal/queue/queue.go:360-389 | a settled recipient is pending again if and only if the server crashed before the item was saved since |
| `QueueTheorems.OneCourierAtATime` | internal/queue/queue.go:322-389 | between two handings over of a recipient the first courier answered, or the server crashed |
| `QueueTheorems.AnswersTheLastCourier` | internal/queue/queue.go:360-389 | every answer is the one answer to the last handing over of its recipient |
| `QueueTheorems.LostSaveRedelivers` | internal/queue/queue.go:384-388 | a run in which a failed write and a crash hand an accepted recipient over again |
| `QueueTheorems.CrashRedelivers` | internal/queue/queue.go:360-389 | a run in which a crash between the courier's answer and the write does |
| `QueueTheorems.PendingGetsTheLimit` | internal/queue/queue.go:322-357 | a recipient still pending when its item is removed was given the whole time limit |
| `QueueTheorems.NeverReappears` | internal/queue/queue.go:235-245 | a removed file is gone in every later state |
| `QueueLog.RemovedIsFinal` | internal/queue/queue.go:235-245 | nothing is written, delivered or filed for a removed item |
| `Retry.SendLoop` | internal/queue/queue.go:317-357 | rounds start no earlier than the minimal schedule and below the limit, each when the one before and its delay are over; the loop ends with the last round if nothing is pending then, and else after its delay, within the limit, 21 minutes and that round |
| `Retry.BaseDelayMeaning` | internal/queue/queue.go:506-525 | the delays of 1, 5, 10 and 20 minutes and the ages they are for |
| `Retry.EarliestInMinutes` | internal/queue/queue.go:506-525 | the minimal schedule is 0, 1, 6, and then 16, 36, 56 minutes and so on |
| `Retry.NextStartMonotone` | internal/queue/queue.go:506-525 | a later end of a round never gives an earlier next round |
| `Retry.AtMost63Rounds` | internal/queue/queue.go:317-347 | a limit of 20 hours allows at most 63 rounds, for any durations and jitter |
| `Retry.SixtyThreeRoundsArePossible` | internal/queue/queue.go:317-347 | that bound is reached |
| `TraceBuffer.Ring.Add` | internal/nettrace/evtring.go:19-34 | the ring holds the latest events and the time of the first one it dropped |
| `TraceBuffer.Ring.Do` | internal/nettrace/evtring.go:36-42 | visits the latest events from older to newer |
| `TraceBuffer.Trace.Append` | internal/nettrace/trace.go:157-172 | the head fills first, then the ring; the event is shown last if and only if there is no ring yet or the head is full, and otherwise before all that the ring holds |
| `TraceBuffer.Trace.SetMaxEvents` | internal/nettrace/trace.go:205-215 | the maximum is at least 6; a trace that is regular, its head and ring holding what they should for the maximum, stays so exactly if it fits in the new head, or its ring has been started and the maximum stays |
| `TraceBuffer.Trace.Events` | internal/nettrace/trace.go:264-287 | the head, the marker and what the ring holds; with a fixed maximum, the view of all that was appended |
| `TraceBuffer.ShownSize` | internal/nettrace/trace.go:264-287 | exactly how many events are shown, and for a trace that has dropped some, exactly when that is within the maximum and one |
| `TraceBuffer.ViewWhenFull` | internal/nettrace/trace.go:264-287 | that view is the first third, a marker with the time of the first event left out, and the latest rest |
| `TraceBuffer.ViewIsBounded` | internal/nettrace/trace.go:264-287 | at most one event more than the maximum, and everything if it fits |
| `TraceBuffer.ViewIsChronological` | internal/nettrace/trace.go:264-287 | chronological input is shown chronologically, marker included |
| `TraceBuffer.RaisedMaximumReorders` | internal/nettrace/trace.go:205-215 | a sequence of calls that breaks the order |
| `TraceBuffer.LoweredMaximumShowsMore` | internal/nettrace/trace.go:205-215 | a sequence of calls that shows ten events at a maximum of six |
| `AllEvents.AppendAllEvents` | internal/nettrace/http.go:166-188 | visits the traces depth first, in the order of the references, each unseen one once, and appends their events with the depth at which they are reached |
| `AllEvents.All` | internal/nettrace/http.go:151-164 | in order of time, exactly the events of all reachable traces, those of each trace once, with a depth at which it is reached |

## Left out

- Cryptography: hash, signing and key acceptance are parameters; a key accepts its own signatures, and "ideal" means no collisions and no acceptance of another digest.
- `Verifying.VerifySignature`: with an l= tag longer than the canonical body the original stops with a run-time error; the model uses the whole body. Sign never writes l=.
- Parsing of DKIM key records and the DNS lookup of keys (internal/dkim/dns.go): the keys found are a parameter.
- Unicode: IDNA, PRECIS and Unicode case folding are parameters with stated laws, or ASCII lower-casing.
- `Session.Conn.Handle`: commands arrive already split, with the outcome of address scanning, SPF, TLS handshakes, hooks and authentication back ends as part of them; deadlines, reply texts and the text of added headers are not modelled.
- `Session.EveryPutIsSafe`: the user database answers by moment and address. Only that a recipient's own domain is local needs lawful normalisers, which make no "@" and keep local domains local. The PRECIS profile of normalize.User also folds the width of characters, which makes an "@" of U+FF20, so for it the law is not assured; that a recipient was admitted does not depend on it.
- `Session.SenderNotDowngraded`: the history of the level database is a parameter, in which the question of the sender is found at its moment; other connections and reloads come in between.
- `AliasFile.ParseReader`: errors of the line scanner; the alias hook is a function of the address.
- Aliases.Exists and its agreement with resolve under a catch-all.
- `DomainInfo.DB.Reload`: a reload that fails ends the process in the original, so only reloads that succeed are modelled; calls are atomic, as under the database lock.
- `Courier.Deliver`: the replies of servers and whether each step of a connection works are parameters; the policy comes from the cache or is absent.
- Parsing of policy files and their HTTP fetch; a domain with a slash, on which domainPath stops the program.
- `SafeIO.Atomic`: a crash is that of the process; loss of written data at a power failure, and with it fsync, is not modelled. Owner and mode of files are not modelled beyond the failure of setting them.
- `QueueTheorems.Durable`: identifiers of new items are taken to be unused, and a message counts as delivered when the courier reports success.
- The queue's routing of one recipient to a courier or a pipe (deliver), its size limit (checked and used in separate critical sections), and the text of DSNs.
- `Retry.SendLoop`: sleeping longer than asked and clocks that go backwards.
- `AllEvents.All`: the traces are fixed while they are gathered, and identifiers are unique.
- Configuration, user databases, monitoring pages, command-line tools, the local delivery agent and the remaining plumbing: they would only add easy members.
