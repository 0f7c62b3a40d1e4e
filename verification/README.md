# Verified models of the Clawbits server and its channel

A Dafny 4.11 model of the parts of Clawbits where one function relies on what others establish, with
proofs of what they promise. Run `dafny verify dfyconfig.toml` to check all of it.

## What is modelled

**The A2UI surface engine** (`clawbits/a2ui`). An agent posts a flat list of components and a JSON
`dataModel`; the server validates both, renders them as text, turns a click into an action and a
message, and closes the card with the values that were sent.

- `Json`, `Text`, `PlainText`, `Options`: JSON values with the key order a dict has, the value they
  mean up to that order (`Meaning`), and the string operations of Python that the code uses.
- `Pointer` and `Walk`: JSON Pointers (RFC 6901 sections 3 and 4) as the engine reads, writes and
  enumerates them. Two predicates decide which write laws hold: a pointer is *writable* when no
  literal, null or list end is in its way, and two pointers *diverge* when neither token list starts
  the other. Paths that differ as strings may be one pointer: `/~` and `/~0` are. `Overwrites`
  says what is left when values written at overlapping pointers hide each other.
- `Surface`, `Inputs`, `HeldValues`, `Validate`: components, the four inputs with exactly the values
  each holds and what it shows of them, and each validator loop against its declarative form. `Valid` joins them with what a2ui-core and the catalog guarantee (`CoreOk`).
- `Click`, `ClickLoops`, `ClickProofs`, `ClickTheorems`, `UntouchedClicks`: a click from request to
  action and text, and the theorems on it.
- `MetChecks` and `AcceptedClicks`: when a check passes, exactly which clicks are accepted, what the
  accepted ones send and post, and why the others are refused.
- `ClosedCards` and `OverlappingInputs`: what a click on the closed card gives, and a valid card on
  which it gives something else.
- `Tree` and `FallbackText`: the structure rule, and what the fallback text is: the lines of the
  components that hang from the root, parents first and children in their order.

**Automation specs.** `CanonicalJson` (the printer and its unique readability), `JsonReader` (a reader
of RFC 8259 text that reads it back) and `SpecNormalForm`.

**Email.** `SenderAuth` (comments of an Authentication-Results header, RFC 5322 section 3.2.2),
`DmarcVerdict` (the verdict over the results a header states) and
`ImapScan` (a cursor over a mailbox that changes underneath it, RFC 9051 section 2.3.1.1).

**Signup.** `Signup` holds the tables as the operations change them, `SignupRuns` every run of them.

**The reef repository client.** `EtagCache` (the LRU of ETags around an await, RFC 9110 section
13.1.2), `ReefNames` and `FleetFiles` (fleet files against a reader of the part of TOML v1.0.0 they
use).

**Reads of the chat tables.** `Scores` (score conservation) and `Hydrate` (a batch of posts against
one post).

**The channel's `.env` file.** `EnvFile` (lines, reading, rewriting), `EnvUpsert` (an upsert against
the reader) and `EnvStore` (the file as it is rewritten, and the lists kept in it).

Some properties hold only under a condition; the exact one is proved, with an input that shows why:

- A set of pointers keeps every choice of values written at it iff the pointers are writable and
  pairwise divergent (`Pointer.KeepsAllIff`). Validation compares paths as strings and so does not
  establish this: `OverlappingInputs.SharedPlaceIsNotFaithful` is a surface that passes it, and a click
  that is accepted, whose closed card gives another action.
- An accepted click closes faithfully iff its closed card reads every sent value back
  (`ClosedCards.FaithfulIffRestored`). When for each sent key some accepted request collects a non-empty
  value there that is no other collected value and no item of one, all accepted clicks of a card close
  faithfully iff its sent pointers are writable and pairwise divergent
  (`ClosedCards.ClosesFaithfullyIff`); a required input does not stand in the way of that. One filled
  request that does so for all keys decides for every request (`ClosedCards.FilledRequestDecides`).
- Whatever representations a server may hold, every history of reads of them returns the body held iff
  no URL uses one tag for two bodies (`EtagCache.ReadsAreCurrentIff`); any tag used twice returns the old
  one (`EtagCache.ReusedTagReturnsOldBody`).
- Two quote-free texts of a comment are read alike in every header, and give the same verdicts for any
  authserv-id of one word, iff both let a quoted string around the comment end or neither does
  (`SenderAuth.CommentTextIsNotReadIff`, `SenderAuth.VerdictIgnoresCommentsIff`). Every text without a
  line break does; one folded after a backslash does not (`SenderAuth.LineBreakIsRead`).
- An upsert is a map update iff no line that merely parses to the key follows the first `key=` line
  and binds it to something else (`EnvUpsert.UpsertIsUpdate`, `EnvUpsert.IndentedLineHides`).
- Upserting a value twice writes the same text twice, and is reported as no change iff the value does
  not end in a blank or a line that is not blank follows (`EnvUpsert.SecondUpsertIsNoChange`,
  `EnvUpsert.TrailingBlankIsAChange`).
- A list in a `.env` file takes a new item after the earlier ones iff the joined text does not itself
  look quoted (`EnvStore.EnsureKeepsItems`, `EnvStore.QuotedListIsCut`).
- Draws and wins make up a chat's finished games iff each has a null winner or a winner whose seat
  row still exists (`Scores.ScoresConserveGames`, `Scores.DeletedSeatsTakeTheirWins`).

## Model

| member | source | states |
|---|---|---|
| `Pointer.UnescapeEscape` | clawbits/a2ui/validate.py:502-505 | Reading a token undoes the escaping of any key, `~`, `/`, `~1` and the empty key included |
| `Pointer.TokensOfPointer` | clawbits/a2ui/validate.py:502-525 | Every token sequence has a pointer that reads back as exactly that sequence |
| `Pointer.PointerInjective` | clawbits/a2ui/validate.py:524-525 | Different token sequences never share an escaped pointer |
| `Pointer.TwoStringsOnePointer` | clawbits/a2ui/validate.py:502-505 | A tilde that no digit follows stands for itself, so two different strings can be one pointer |
| `Pointer.WriteAll` | clawbits/a2ui/validate.py:470-477 | The loop that rebinds the model writes each value in turn, as `Written` does |
| `Pointer.ReadAfterWrite` | clawbits/a2ui/validate.py:470-493 | A path just written reads as the value if it is writable, else as null; a blocked write, the root included, leaves the model equal |
| `Pointer.ReadElsewhereAll` | clawbits/a2ui/validate.py:470-493 | Any number of writes leaves what divergent pointers read, and whether they can be written, unchanged |
| `Pointer.ReadAfterAll` | clawbits/a2ui/validate.py:470-493 | After writes at pairwise divergent pointers each reads as if written alone |
| `Pointer.KeepsAllIff` | clawbits/a2ui/validate.py:470-493 | A model keeps all values written at a set of pointers iff they are writable and pairwise divergent |
| `Pointer.WriteOrderIrrelevant` | clawbits/a2ui/validate.py:470-487 | The order of writes at pairwise divergent pointers does not change the value of the model |
| `Pointer.WrittenAgain` | clawbits/a2ui/validate.py:470-487 | Writing what is already read leaves the model identical, key order included |
| `Overwrites.WrittenSettles` | clawbits/a2ui/validate.py:470-493 | After any writes of input values, overlapping or not, a written pointer that reads null is one that cannot be written |
| `Overwrites.WrittenStays` | clawbits/a2ui/validate.py:470-487 | Writes that find their value in place, or find no way to theirs, leave the model identical |
| `Overwrites.WrittenKeepsBlocked` | clawbits/a2ui/validate.py:470-493 | A pointer that cannot be written still cannot after writes of which none stores a list with items where the pointer passes |
| `Walk.WalkedIsRead` | clawbits/a2ui/validate.py:490-521 | Each walked path reads as the node it was yielded with |
| `Walk.WalkIsExact` | clawbits/a2ui/validate.py:514-521 | Every position of a value is enumerated exactly once, under its own escaped pointer |
| `Walk.ReadIsWalked` | clawbits/a2ui/validate.py:304-306 | What any pointer reads is null or a walked node, so a rule on all nodes covers all reads |
| `Inputs.EmptyIsShown` | clawbits/a2ui/validate.py:121-122 | The empty value that null stands for is one each input can hold |
| `Inputs.ShownIsPlain` | clawbits/a2ui/validate.py:190-240 | What an input shows of plain options and a plain value has no `@` and no link |
| `HeldValues.TextFieldShows` | clawbits/a2ui/validate.py:204-212 | A TextField holds exactly the texts of at most 2000 characters, on one line unless it is long, and a numeral or nothing if it is one for numbers; it shows them as they are |
| `HeldValues.NumberIff` | clawbits/a2ui/validate.py:42 | A number is a sign, digits with a fraction or a fraction alone, and a power of ten |
| `HeldValues.EmailIff` | clawbits/a2ui/validate.py:41 | An email address is a user, an at-sign, a host, a dot and a domain, without blanks |
| `HeldValues.CheckBoxShows` | clawbits/a2ui/validate.py:215-216 | A CheckBox holds true, shown as yes, and false, shown as no |
| `HeldValues.ChoicePickerShows` | clawbits/a2ui/validate.py:190-201 | A ChoicePicker holds exactly the lists of different option values, at most one unless several may be picked, and shows the labels in order, of equal values the last one's |
| `HeldValues.DateTimeShows` | clawbits/a2ui/validate.py:219-240 | A DateTimeInput holds nothing or a text of just the enabled parts at a time there is, and shows it to the minute without its offset |
| `Validate.StructureProblems` | clawbits/a2ui/validate.py:335-352 | The loop reports nothing iff no reference repeats, no template is used and every Button is labelled by a Text |
| `Validate.ClickProblems` | clawbits/a2ui/validate.py:277-328 | The loops report nothing iff input texts, starts, model strings and events all satisfy their rules |
| `Validate.InputProblems` | clawbits/a2ui/validate.py:281-303 | The input loop collects exactly the bound pointers and reports nothing iff each input is clean and its pointer its own |
| `Validate.OneEventProblems` | clawbits/a2ui/validate.py:307-328 | One event has no problem iff its texts are plain and each bound key sends one input's pointer that no other key sends |
| `Surface.LookupsAgree` | clawbits/a2ui/validate.py:101-155 | With unique ids the click's lookup (last wins) and the closing one (first wins) find the same component |
| `ClickLoops.CollectValues` | clawbits/a2ui/validate.py:116-128 | The loop over sorted keys fills `bound` and `shown` as the recursive form does, stopping at the first bad value |
| `ClickLoops.RunChecks` | clawbits/a2ui/validate.py:130-133 | The loop stops at the first component with a failing check and reports its first failure |
| `ClickLoops.Build` | clawbits/a2ui/validate.py:88-147 | The whole of `build_action`, its loops included, computes the function the theorems below are about |
| `ClickTheorems.NoCrash` | clawbits/a2ui/validate.py:88-187 | Over valid components no unguarded lookup or comparison fails, whatever the model and the request |
| `ClickTheorems.AfterCollecting` | clawbits/a2ui/validate.py:116-147 | Once every value is one its input holds, only a failing check or the length cap refuses |
| `ClickTheorems.ModelIrrelevant` | clawbits/a2ui/validate.py:116-147 | Two data models in which the sent pointers keep what is written give the same verdict, action and text |
| `ClickTheorems.CheckedChecks` | clawbits/a2ui/validate.py:365-375 | The checks a click runs are typed and read only pointers that it sends |
| `MetChecks.FailureIff` | clawbits/a2ui/validate.py:169-187 | A typed condition passes iff it is met: true at its pointer, something there, a length within its limits, nothing or an address; else it has its default text |
| `MetChecks.FailuresIff` | clawbits/a2ui/validate.py:162-166 | No failure is listed iff every check is met; else the first one is what the first unmet check says, its message unless that is empty |
| `MetChecks.PassIff` | clawbits/a2ui/validate.py:130-133 | The checks pass iff all of every component are met; else the first component with one that is not refuses |
| `MetChecks.EmptyIsNotRequired` | clawbits/a2ui/validate.py:178-179 | A required text that reads as empty is refused as required |
| `AcceptedClicks.ClickOfIff` | clawbits/a2ui/validate.py:100-105 | A request makes a click iff its source is a Button that sends an event; else it is refused as such |
| `AcceptedClicks.CollectedIff` | clawbits/a2ui/validate.py:108-128 | The values are collected iff each is one its own input holds, null read as that input's empty value, and then they are these values |
| `AcceptedClicks.RefusedBefore` | clawbits/a2ui/validate.py:106-125 | Wrong keys are refused; else, in the order of the inputs, the first value that its input cannot hold |
| `AcceptedClicks.LinesAre` | clawbits/a2ui/validate.py:115-128 | One line for each sent input that shows something, in the components' order, under its literal label or else its key |
| `AcceptedClicks.AcceptedIff` | clawbits/a2ui/validate.py:129-147 | With all values held the click comes to the first unmet check's refusal, else to the length refusal, else to the action with every value in its place and to the text with every line |
| `AcceptedClicks.ClickAcceptedIff` | clawbits/a2ui/validate.py:88-147 | A click is accepted iff its keys are right, its values held, every check of its Button and sent inputs met over the model with them written, and its text at most 40000 characters |
| `AcceptedClicks.EmptyRequiredIsRefused` | clawbits/a2ui/validate.py:130-133 | A sent text with a required check on it that is sent empty refuses the click |
| `ClickTheorems.ClosesOverCheckedModel` | clawbits/a2ui/validate.py:129-159 | Closing stores exactly the model that the click's checks passed over, and the longest start of the text without a newline |
| `ClosedCards.SendingBack` | clawbits/a2ui/validate.py:116-129 | A closed card that reads every sent value back collects the same values and stays equal |
| `ClosedCards.FaithfulIffRestored` | clawbits/a2ui/validate.py:88-159 | A click on the closed card as it stands gives the same action and text iff its model reads every sent value back, null standing for the empty one |
| `ClosedCards.ClosingIsFaithful` | clawbits/a2ui/validate.py:88-159 | Where the sent pointers keep what is written, clicking the closed card untouched rebuilds the same action and text, and closing it again keeps its surface |
| `ClosedCards.ClosesFaithfullyIff` | clawbits/a2ui/validate.py:88-159 | When for each sent key an accepted request collects a non-empty value that is no other key's and in no other's list, every accepted click closes faithfully iff the sent pointers are writable and pairwise divergent |
| `ClosedCards.FilledRequestDecides` | clawbits/a2ui/validate.py:88-159 | When one accepted request does that for all keys, every accepted click of the card closes faithfully iff that one does |
| `OverlappingInputs.CardIsValid` | clawbits/a2ui/validate.py:294-303 | A card with inputs bound to `/~` and `/~0` passes every rule and is a tree |
| `OverlappingInputs.SharedPlaceIsNotFaithful` | clawbits/a2ui/validate.py:294-296 | That card accepts a click whose closed card, clicked untouched, does not give the same action and text |
| `UntouchedClicks.UntouchedRefusals` | clawbits/a2ui/validate.py:277-328 | On a valid surface an untouched click is refused only by a failing check or by the length cap |
| `UntouchedClicks.UntouchedTextIsPlain` | clawbits/a2ui/validate.py:115-137 | The whole text an untouched click posts has no `@`, no link and no leading slash |
| `UntouchedClicks.PostTextPlain` | clawbits/a2ui/validate.py:135-137 | Joining plain pieces with `: ` and newlines never creates a link or a leading slash |
| `UntouchedClicks.SortIsSurfaceOrder` | clawbits/a2ui/validate.py:115-118 | Sorting the sent keys by their input's place lists them as a scan of the surface's inputs |
| `UntouchedClicks.LinesFollowSurface` | clawbits/a2ui/validate.py:115-128 | Values are collected and shown in the order the surface lists its inputs |
| `UntouchedClicks.ContextOrderIrrelevant` | clawbits/a2ui/validate.py:106-128 | The order of the context's entries changes neither what is collected nor the lines shown |
| `Tree.FallbackIsLinear` | clawbits/a2ui/fallback.py:9-50 | On a validated tree the text exists, visits each component at most once and is shorter than the components' own text with a separator each |
| `Tree.VisitsOnce` | clawbits/a2ui/validate.py:335-352 | Without shared parents and with an unparented root no component is reached twice from any component below the root |
| `Tree.RenderEnds` | clawbits/a2ui/fallback.py:13-50 | The recursion from any component below the root ends within the number of components |
| `Tree.FallbackAtAnyDepth` | clawbits/a2ui/fallback.py:9-50 | More depth never changes the text, so it is the text of the unbounded recursion |
| `FallbackText.FallbackIsLines` | clawbits/a2ui/fallback.py:9-50 | The text is the lines of the visited components joined by newlines, the empty ones left out: a literal text or label, a titled notice, a leaf's text, and a Button's label with its link |
| `FallbackText.VisitedIff` | clawbits/a2ui/fallback.py:9-50 | Exactly the components that hang from the root are visited |
| `FallbackText.ParentFirst` | clawbits/a2ui/fallback.py:13-19 | A component is visited before all that hangs from it |
| `FallbackText.ChildrenInOrder` | clawbits/a2ui/fallback.py:18-19 | Of two children of one component all that hangs from the earlier is visited before all that hangs from the later |
| `FallbackText.TwoTexts` | clawbits/a2ui/fallback.py:18-19 | A Column of two Texts reads as the first one's line and then the second one's |
| `Tree.SharingIsExponential` | clawbits/a2ui/validate.py:338 | With shared children n + 1 components would expand to at least 2 to the n characters |
| `CanonicalJson.ShowUnique` | clawbits/automations/spec.py:115-123 | A value is read uniquely off the front of any text that starts with its printing |
| `CanonicalJson.SortedEffect` | clawbits/automations/spec.py:115-123 | Sorting keys orders every object at every depth and keeps the value |
| `CanonicalJson.OrderedUnique` | clawbits/automations/spec.py:115-123 | A value has exactly one form with sorted keys |
| `CanonicalJson.CanonicalIdentifies` | clawbits/automations/spec.py:115-123 | Two values print to the same canonical text iff they are equal up to key order at every depth |
| `JsonReader.CanonicalReadsBack` | clawbits/automations/spec.py:115-123 | A reader of JSON text reads the canonical text as the value, keys ascending in every object, and the text has no blank outside its strings |
| `JsonReader.ReadShow` | clawbits/automations/spec.py:115-123 | The reader reads a printed value off the front of any text |
| `JsonReader.ShortEscape` | clawbits/automations/spec.py:121-123 | A character is escaped only if it must be, in the shortest way |
| `CanonicalJson.SpecHashIdentifies` | clawbits/automations/spec.py:126-128 | With a collision-free hash, spec hashes are equal iff the specs are |
| `SpecNormalForm.Normalize` | clawbits/automations/spec.py:73-89 | The edits of the local dict amount to the normal form, and a spec that is no object is an error |
| `SpecNormalForm.NormalizedMeaning` | clawbits/automations/spec.py:55-89 | The normal form depends on the value alone, in whatever order the allowed keys are iterated |
| `SpecNormalForm.NormalizeIsIdempotent` | clawbits/automations/spec.py:55-89 | Normalizing again changes nothing but key order |
| `SpecNormalForm.NormalizeRespectsEquality` | clawbits/automations/spec.py:73-89 | Specs equal up to key order normalize to equal specs |
| `SpecNormalForm.DeliveryOnlyAnnounces` | clawbits/automations/spec.py:55-70 | A delivery that survives is an announcement to a non-empty target and nothing else |
| `SpecNormalForm.NormalizeKeepsHash` | clawbits/automations/spec.py:73-128 | Normalizing again never changes a spec's hash |
| `SenderAuth.StripIsScan` | clawbits/email/sender_auth.py:28-31 | Rewriting innermost comments until none is left equals one pass with a stack, and leaves no comment |
| `SenderAuth.StripLoop` | clawbits/email/sender_auth.py:28-31 | The while loop ends and returns the one-pass scan |
| `SenderAuth.ScanGroup` | clawbits/email/sender_auth.py:16-31 | A matched group, whatever is nested in it, scans to one space |
| `SenderAuth.CommentTextIsGone` | clawbits/email/sender_auth.py:28-31 | Two texts that differ only inside a comment strip to the same text |
| `SenderAuth.OneLineLetsThrough` | clawbits/email/sender_auth.py:16-24 | Whatever backslashes it holds, a comment text without a line break lets a quoted string around it end |
| `SenderAuth.CommentTextIsNotRead` | clawbits/email/sender_auth.py:16-31 | Two quote-free texts of a comment that both let a quoted string through, or both do not, leave the same to be read, wherever the comment stands |
| `SenderAuth.BetweenQuotes` | clawbits/email/sender_auth.py:16-31 | In a quoted string within plain text a comment is swallowed iff its text lets the quoted string through, and is read as a space otherwise |
| `SenderAuth.CommentTextIsNotReadIff` | clawbits/email/sender_auth.py:16-31 | Two quote-free texts of a comment are read alike in every header iff both let a quoted string through or neither does |
| `SenderAuth.LineBreakIsRead` | clawbits/email/sender_auth.py:16-31 | A comment text folded after a backslash breaks the quoted string around it, in any plain text, unlike any text without a line break |
| `SenderAuth.CommentOutsideQuotesIsNotRead` | clawbits/email/sender_auth.py:16-31 | Outside quoted strings nothing quote-free in a comment is read, line breaks after backslashes included |
| `SenderAuth.VerdictIgnoresComments` | clawbits/email/sender_auth.py:44-73 | Changing the quote-free text of a comment of the topmost header to one that lets a quoted string through as well, or as little, never changes the verdict |
| `SenderAuth.CommentDecides` | clawbits/email/sender_auth.py:44-73 | For any authserv-id of one word, a comment in a quoted string before a domain makes the verdict pass or unknown |
| `SenderAuth.VerdictIgnoresCommentsIff` | clawbits/email/sender_auth.py:44-73 | For any authserv-id of one word two quote-free texts of a comment give the same verdicts, whatever surrounds them, iff both let a quoted string through or neither does |
| `DmarcVerdict.VerdictOfResults` | clawbits/email/sender_auth.py:44-73 | For every header printed from an id and results the verdict is pass or fail iff the id is ours up to case, one result alone states DMARC, it is about the sender's domain up to dots, and says so; else unknown, with the reason; the answer carries address and domain |
| `DmarcVerdict.SeveralSendersFail` | clawbits/email/sender_auth.py:49-52 | Several From headers or addresses fail, with no address |
| `DmarcVerdict.NoDomainIsUnknown` | clawbits/email/sender_auth.py:53-56 | No address, or one without a domain, is unknown |
| `DmarcVerdict.NothingTrusted` | clawbits/email/sender_auth.py:57-62 | Without an authserv-id of our own or without a header the verdict is unknown |
| `ImapScan.HistoryMovesOn` | clawbits/email/imap_client.py:434-463 | Every history of deliveries, expunges and resets keeps UIDs below UIDNEXT and, within an epoch, adds only new ones |
| `ImapScan.PageIsExact` | clawbits/email/imap_client.py:434-463 | A page never raises, moves on while there is more, and reports in order exactly the UIDs it passes that were there when it searched and fetched |
| `ImapScan.PageIsFilled` | clawbits/email/imap_client.py:434-463 | A changed epoch and nothing else refuses; else the bound is the given one clamped to UIDNEXT-1, there is more iff a searched UID is left below it, a page with more has passed exactly as many searched UIDs as the limit, and one without has passed all |
| `ImapScan.CursorGrows` | clawbits/email/imap_client.py:434-463 | The cursor never moves back over a run |
| `ImapScan.ReportsAscend` | clawbits/email/imap_client.py:434-463 | Later pages report only larger UIDs, so none twice |
| `ImapScan.EachMessageOnce` | clawbits/email/imap_client.py:434-463 | Across scans each UID the cursor passes is passed by one page, reported there iff present, and by no other |
| `ImapScan.StillThereWasReported` | clawbits/email/imap_client.py:434-463 | Every message still in the mailbox later in the epoch, above the start and at or below the cursor, was reported by exactly one page |
| `ImapScan.ScanIsComplete` | clawbits/email/imap_client.py:434-463 | When a scan has no more, every message above its start and at or below its bound that is still in the mailbox was reported by exactly one page |
| `ImapScan.FirstOfTwo` | clawbits/email/imap_client.py:456-462 | Of two messages read one by one the first page says that there is more |
| `ImapScan.NothingOld` | clawbits/email/imap_client.py:434-463 | Nothing at or below the starting cursor is reported |
| `ImapScan.SameEpoch` | clawbits/email/imap_client.py:111-116 | All pages of a run are read in one epoch; a changed one refuses |
| `ImapScan.BoundStays` | clawbits/email/imap_client.py:434-463 | While there is more, the upper bound stays what the first page set |
| `ImapScan.ScanEnds` | clawbits/email/imap_client.py:434-463 | While there is more each page climbs by at least one and stays below the bound, so the scan ends |
| `Signup.GenerateId` | clawbits/fastapi/agent_signup.py:389-402 | The drawn id is the first candidate that is free, its fleet name too; none is drawn only when every candidate is taken |
| `Signup.CandidateGrows` | clawbits/fastapi/agent_signup.py:389-402 | Each candidate is the nickname and digits, one more for every three rejected |
| `Signup.CommitKeeps` | clawbits/fastapi/agent_signup.py:195-331 | A commit keeps reserved ids distinct and unused sessions off existing agents' ids |
| `Signup.CommitConsumes` | clawbits/fastapi/agent_signup.py:195-331 | A refused commit changes nothing; a successful one marks used exactly the tokens it consumed, all unused before |
| `Signup.CommitIff` | clawbits/fastapi/agent_signup.py:184-265 | A commit goes through iff its token is live, of a known org, with its human or with its challenge answered up to case, the signup token it goes by live, and an agent to rebind of that org; which refusal anything else gives is exact |
| `Signup.WrongAnswerIsRefused` | clawbits/fastapi/agent_signup.py:222-229 | A wrong answer to the challenge is refused and changes nothing |
| `Signup.CreatedAgent` | clawbits/fastapi/agent_signup.py:271-330 | A created agent has the promised or drawn id, the consumed placement, and an org and operator iff the session has a human |
| `Signup.CommitUnderMintedId` | clawbits/fastapi/agent_signup.py:195-331 | A minted signup without a rebind creates one agent, under exactly its minted id and nickname |
| `Signup.RebindKeepsAgents` | clawbits/fastapi/agent_signup.py:195-331 | A rebind creates no agent; the one it names, of the session's org, gets one more key and the placement the consumed session carries, and no other agent changes |
| `Signup.Store.MintHuman` | clawbits/fastapi/agent_signup.py:45-85 | A mint reserves the first of eight draws whose id no session holds and stores the unused session of that org and human, its placement named after the id when it has no name; else nothing changes |
| `Signup.PlacementOf` | clawbits/fastapi/agent_signup.py:78-79 | A placement asked for without a name takes the fleet name of the drawn id |
| `Signup.Store.MintRebind` | clawbits/fastapi/agent_signup.py:88-109 | A session that carries the rebind id and the placement, and reserves no id, is added and nothing else changes |
| `Signup.Store.OpenAgentic` | clawbits/fastapi/agent_signup.py:112-160 | A first step over a signup token that is unknown, used, expired or of another org, or without a human, adds nothing; else the session carries the token and the human behind it |
| `Signup.Store.CommitSignup` | clawbits/fastapi/agent_signup.py:164-331 | The second step changes the tables exactly as the transaction does and keeps the reservations sound |
| `SignupRuns.StepKeeps` | clawbits/db/table_write.py:429-482 | Mints, commits, uses and deletions all keep the run's invariant |
| `SignupRuns.TokensAreSpentOnce` | clawbits/fastapi/agent_signup.py:195-331 | Over every run the tokens of distinct successful commits are disjoint and no unused session reserves an existing agent's id |
| `SignupRuns.PromisesAreKept` | clawbits/fastapi/agent_signup.py:61-85 | At any point of any run a minted signup without a rebind gets its minted id and nickname, an id no agent had |
| `EtagCache.StoredSound` | clawbits/reef_repo.py:183-211 | Storing keeps at most 256 entries, never evicts the one just stored, and below capacity evicts none |
| `EtagCache.StoredIsLatest` | clawbits/reef_repo.py:205-210 | Storing makes a slot the latest and keeps the others in order; beyond the capacity the oldest one alone is gone |
| `EtagCache.TouchedIsLatest` | clawbits/reef_repo.py:188-190 | Using a slot makes it the latest and keeps the others in order |
| `EtagCache.Cache.Begin` | clawbits/reef_repo.py:183-191 | The first half of a request finds the entry and moves it to the end, keeping all entries |
| `EtagCache.Cache.Finish` | clawbits/reef_repo.py:192-211 | The second half returns the body the response stands for and stores it under its ETag |
| `EtagCache.StepKeeps` | clawbits/reef_repo.py:183-211 | Every change of the server and every half of a request keeps the system's invariant |
| `EtagCache.ReadsAreCurrent` | clawbits/reef_repo.py:183-211 | With honest ETags every finished request of every interleaving returned the body the server held when it answered |
| `EtagCache.ReusedTagReturnsOldBody` | clawbits/reef_repo.py:183-211 | For every URL, every non-empty tag and any two bodies, a tag used for both returns the first one again |
| `EtagCache.ReadsAreCurrentIff` | clawbits/reef_repo.py:183-211 | Whatever representations a server may hold, every interleaving of their reads returns what was held iff no URL uses a tag for two bodies |
| `ReefNames.FleetNameIsValid` | clawbits/reef_repo.py:403-407 | Every valid agent id gets a name that satisfies reef's own rule |
| `ReefNames.FleetNameIs` | clawbits/reef_repo.py:403-407 | The name is the id in lower case with hyphens, up to its last character that is no underscore, with an `a` in front unless it starts with a letter |
| `FleetFiles.FleetFileReadsBack` | clawbits/reef_repo.py:369-400 | A declared agent is read back with its role, owner and environment, whatever the padding of keys |
| `FleetFiles.AgentFileReadsBack` | clawbits/reef_repo.py:369-407 | The file written under the fleet name of any valid agent id reads back as that role, owner and environment |
| `FleetFiles.RedeclaredReadsBack` | clawbits/fastapi/human_endpoints.py:2119-2146 | Redeclaring an agent with a fresh token keeps its role, owner and every other variable |
| `FleetFiles.TombstoneReadsAsNone` | clawbits/reef_repo.py:387-400 | A tombstone is readable and declares nobody |
| `FleetFiles.TomlOfLines` | clawbits/reef_repo.py:373-384 | A written file reads as its lines read in turn |
| `Scores.MmWidgetScores` | clawbits/db/table_read.py:4387-4411 | From the rows of both statements in any order, each chat with a finished game gets its score, no row lacks its chat, and no other chat appears |
| `Scores.FinishedIs` | clawbits/db/table_read.py:4376-4384 | A chat's finished games are its widgets with that status |
| `Scores.ScoresConserveGames` | clawbits/db/table_read.py:4376-4411 | Draws, wins and uncounted games add up to the finished games; draws and wins alone do iff each has a null winner or a seated one |
| `Scores.DeletedSeatsTakeTheirWins` | clawbits/db/table_read.py:4380-4384 | Deleting an account's seats takes its wins and nothing else from any score |
| `Hydrate.HydrateMmPosts` | clawbits/db/table_read.py:1820-1952 | A batch answers each post exactly as that post is answered alone, for every state of the tables |
| `Hydrate.GroupReactions` | clawbits/db/table_read.py:1858-1871 | The nested `setdefault` loop holds, for every post, its reactions grouped by emoji in first-use order |
| `Hydrate.GroupedSnoc` | clawbits/db/table_read.py:1864-1871 | One more reaction changes the grouping exactly as it changes the dictionary |
| `Hydrate.GroupingConserves` | clawbits/db/table_read.py:1858-1871 | Grouping loses no reaction and counts none twice |
| `Hydrate.GroupFiles` | clawbits/db/table_read.py:1872-1895 | The file loop holds, for every post, its uploaded files in order |
| `Hydrate.FaithfulPreview` | clawbits/db/table_read.py:1904-1920 | A parent's preview in a batch, its author and attachments included, is the one read straight from the tables |
| `Hydrate.ExcerptFits` | clawbits/db/table_read.py:1907-1911 | An excerpt has at most 140 characters and is the stripped message's start, marked when cut |
| `Hydrate.ExcerptIs` | clawbits/db/table_read.py:1907-1911 | The excerpt is the stripped message, of a post with a surface its first line, cut to 139 characters without blanks at their end and a mark when longer than 140 |
| `Hydrate.AgentName` | clawbits/db/table_read.py:1836-1850 | An agent goes by its profile's name, else its nickname, else its id, empty names left out |
| `EnvFile.SplitJoined` | ironclaw-channel/clawbits_ironclaw.py:71 | Joined lines, ended by a newline, split into themselves |
| `EnvFile.StripJoined` | ironclaw-channel/clawbits_ironclaw.py:71 | Stripping the joined text drops its blank last lines and the blank end of the last one left |
| `EnvFile.TrimParses` | ironclaw-channel/clawbits_ironclaw.py:32-45 | What stripping drops binds nothing |
| `EnvFile.ParseLineIff` | ironclaw-channel/clawbits_ironclaw.py:36-44 | A line binds iff, stripped, it is no comment and has an equals sign: what is before the first one, stripped, to what is after it, stripped and unquoted |
| `EnvFile.UnquoteIs` | ironclaw-channel/clawbits_ironclaw.py:42-43 | One pair of equal quotes around a value is taken off, and nothing else |
| `EnvUpsert.EntryParses` | ironclaw-channel/clawbits_ironclaw.py:38-44 | A line that starts with `key=` is read as that key |
| `EnvUpsert.UpsertedParse` | ironclaw-channel/clawbits_ironclaw.py:54-66 | After the loop the lines read as the old map with one binding changed, unless a later loose line hides it |
| `EnvUpsert.UpsertIsUpdate` | ironclaw-channel/clawbits_ironclaw.py:32-72 | Reading the rewritten file gives the old map with that one binding iff no later line that merely parses to the key binds it to something else |
| `EnvUpsert.TidyUpsert` | ironclaw-channel/clawbits_ironclaw.py:32-72 | When every line parsing to the key starts with `key=`, the value is the one change iff it reads as itself |
| `EnvUpsert.IndentedLineHides` | ironclaw-channel/clawbits_ironclaw.py:54-66 | An indented binding after the replaced line still wins |
| `EnvUpsert.SecondUpsertIsNoChange` | ironclaw-channel/clawbits_ironclaw.py:48-72 | A second identical upsert writes the same text, and reports no change iff the value does not end in a blank or a line that is not blank follows |
| `EnvUpsert.TrailingBlankIsAChange` | ironclaw-channel/clawbits_ironclaw.py:48-72 | In a new file a value that ends in a blank, upserted again, writes the same text but is not reported as unchanged |
| `EnvStore.ChannelEnv.ReadMap` | ironclaw-channel/clawbits_ironclaw.py:32-45 | The line-by-line loop fills the map the file parses to |
| `EnvStore.ChannelEnv.Upsert` | ironclaw-channel/clawbits_ironclaw.py:48-72 | The loop over lines rewrites the file and reports added, changed or unchanged as specified |
| `EnvStore.ChannelEnv.EnsureList` | ironclaw-channel/clawbits_ironclaw.py:75-81 | A listed item leaves the file alone; a new one is upserted after the others |
| `EnvStore.EnsureKeepsItems` | ironclaw-channel/clawbits_ironclaw.py:75-81 | The new list is the old one with the item last iff the joined text does not look quoted, and no other key changes |
| `EnvStore.QuotedListIsCut` | ironclaw-channel/clawbits_ironclaw.py:75-81 | A list of `"a` that takes `b"` reads back as `a` and `b` |

## Left out

- a2ui-core and the catalog's schemas are hypotheses (`Validate.CoreOk`): ids unique, references
  resolved, properties present and typed, a check's length limits non-negative integers, a literal
  user message, the data model an object whose dicts name no key twice.
- `Surface.Leaf` stands for Divider, KeyValue, Stats, StatusList, Table and Chart: their formatting is
  their own text, and their cross-field rules, string and byte limits, accessibility rules and link
  patterns are not modelled.
- `Inputs.Moment`: which dates and times exist is a parameter; only the shape and the truncation to the
  minute are modelled.
- Error wording, timestamps and identifiers drawn at random are parameters or left out.
- A float is its `repr`, never equal to an integer or a boolean; Python's `1 == 1.0 == True` is not
  modelled, nor lone surrogates, and lower and upper case are those of ASCII letters.
- `SpecNormalForm.Normalize`: the iteration order of the set of allowed keys is a parameter.
- `SenderAuth.VerdictIgnoresComments`: the parsing of From headers and addresses is a parameter, and a
  changed comment holds no quote of its own, since a quote may begin a quoted string that runs past it.
- `DmarcVerdict.VerdictOfResults`: results are printed as `key=value` words without blanks, quotes,
  parentheses and semicolons; what comments and quoted strings do to a header is in `SenderAuth`.
- `JsonReader.CanonicalReadsBack`: a number that is no integer is kept as its text, and half a
  surrogate pair escaped on its own is not read.
- `ImapScan.ScanEnds`: the limit is at least 1, as the endpoint clamps it
  (clawbits/fastapi/email_endpoints.py:240); fetching and decoding of messages is left out.
- Transactions are atomic: what survives of a deletion when an error is raised afterwards is not
  claimed. A token is never drawn twice.
- `Signup.CommitConsumes`: what is stated is per session and the signup token it carries, not one agent
  for each human token; the first step does not test the presented token's prefix
  (clawbits/fastapi/agent_signup.py:126-137).
- `Signup.GenerateId`: the digits drawn are a finite parameter; that random draws end the loop is not claimed.
- `EtagCache.ReadsAreCurrent`: weak ETags are compared as their text, and network errors are one kind
  of failure.
- `FleetFiles.FleetEntry`: comments, escapes, dotted keys in pairs and other value types are malformed
  to the modelled reader, an `env` that is not a table reads as no variables, and files are text, not
  bytes.
- `Scores.MmWidgetScores`: the two statements' groupings are the hypotheses `Counts` and `GroupsWins`;
  the query planner's row order is left free.
- `Hydrate.HydrateMmPosts`: the columns copied as they are stand behind one field; avatar references
  and ISO dates are taken from the rows.
- `EnvStore.ChannelEnv.Upsert`: creating the directory and the encoding of the file are left out; the
  text is what opening the file in text mode yields.
- Everything else: avatars, audit log, connectors, search, calls of GitHub, R2, Stalwart and
  Cloudflare, which are single queries or code that is not shown.
