# A verified model of mailo's live values and its mail archives

A mail program keeps two promises that are hard to see from any one function. What a window shows is
what the store would answer if it were asked now, although many threads write, hear and read at once; and
mail taken out of an archive and put back is the same mail. This project models the code that keeps those
promises and proves when it does, and when it does not.

## What is modelled

**The live-value cache** (`Live*.dfy`) is the client's cache of query answers. An entry has three flags under
a lock. Around it are a queue, a `busy` counter, a registry of weak references, reader threads, a thread that
hears commits, an act thread, a watch for other processes, and a clock. `LiveProtocol` is a step relation with a
program counter for each thread, where a step is one locked section, one atomic operation or one store operation.
A run is any interleaving of steps, by any number of threads. `LiveOwnership`, `LiveCounts`, `LiveFreshness`,
`LiveValues` and `LiveActs` each hold one part of an inductive invariant, `LiveTheorems` puts them together, and
`LiveAtRest`, `LiveClock` and `LiveQuiescence` say what follows. `LiveWrites`, `LiveSteps` and `LiveShown` say it of the steps of
a run: what becomes of a commit, an invalidation, a stop and a failed reading; `LiveTickets` is one run. `LiveEntry`, `LiveInline` and `LiveRegistry` are
classes: the entry, the client with no threads, which is made of such entries, and the registry, which is proved to take
the protocol's steps.

**The mbox reader and writer** (`Bytes.dfy`, `Mbox*.dfy`) is a streaming parser with pushback and a speculative
`Content-Length`, and the writer that should be its inverse. `MboxReader` is the class with its loops; `MboxSplit`
is what each method is proved to compute, over the lines still to be read. `MboxSound`, `MboxRuns` and `MboxWork` hold of
any file: `MboxWork` counts how often each byte is handed out, a byte being named by how many come after it. `MboxWritten`,
`MboxLengths`, `MboxCuts` and `MboxRoundTrip` are about files that were written, and decide exactly which come back; in
`MboxLosses` are some that do not. `MboxFields` says what each line means, in terms of its text: a length, an envelope, a sender,
the end of a section. `MboxCounted` is about files that others write, which quote nothing and say each body's length.

**Smaller parts**: the Maildir name, flag and folder codecs (`Maildir.dfy`, `MaildirFolders.dfy`, over
`Sorting.dfy`), the watch for other processes' commits (`ExternalWatch.dfy`), the wake-ups of the outbox
(`Outbox.dfy`) and the relay's object for one key (`Relay.dfy`).

## What the store and the platform are taken to do

- A commit is first visible to new readings, then counted as a generation, then sent to who listens: three
  steps (`crates/mail-store/src/changes.rs`). A pinned reading sees one moment of the database, and every commit
  counted before it began.
- A commit leaves the answer of every query that reads none of the topics it named, and a query that does not name
  the clock does not read it (`Leaves`, `Declared`). A commit that named nothing counts as having touched everything. Each
  write made under one hold of the writer names its own topics: `leave` would take the topics named by one
  write for those of another that named none.
- Equal queries share a bucket.
- `usize` is 64 bits wide. An envelope's date is some text on one line with `hh:mm` in it; sender and date are kept
  as bytes.
- A hash is an opaque function. The relay's storage lets no other call in between one call's storage operations, but
  one may come in while a call waits for a hash.

## What was found

- **A settled client can show a value of an earlier clock.** `read` evaluates `self.now()` before `run` marks the entry
  as being read. A clock moved in that moment marks an entry that still counts as queued, so nothing is queued again,
  and the reading goes on with the clock taken before. `LiveClock.StaleRun` is such a run. `LiveClock.ClockExactly`
  says a query's settled values are always current if and only if its answer does not depend on the clock, and
  `LiveAtRest.NoLostInvalidation` says of one reading that its value is current if the clock did not move in that moment.
- **`idle` can say so while a value waits to be read** (`LiveClock.IdleIsNotSettled`). A client that says it is idle, and is
  not stopping, has nothing queued and nothing being read if and only if no thread is between marking an entry and counting
  it in `busy` (`LiveAtRest.IdleExactly`).
- **Header lines are quoted and not unquoted.** Messages come back as they were delivered only if no line of a header
  section is `^>*From `, but for one case: a length that is rejected and cuts a header line of a later message so that a part
  is blank ends the headers there, and the lines after it are unquoted (`MboxLosses.CutUnquotes`).
  `MboxRoundTrip.RoundTripDelivers` is the exact condition, `MboxRoundTrip.DeliversExactly` says what it comes to where there
  is no such cut, and `MboxLosses.HeaderQuoteStays` is a message that does not meet it.
- **A believed length can change its message, or a later one.** Accepted, it must be true and nothing quoted; a body of one
  blank line with a length of zero is lost (`MboxLosses.UntrueLengthLoses`). Rejected, it may have cut a line in two. Of the
  message's own body, that line must be unquoted in its parts to what it is whole (`MboxLosses.CutQuotingStays`). Of a later
  message, the same holds of a line of its body (`MboxLosses.LaterQuotingStays`), a header line must not have ended the
  headers before a quoted one, and an envelope line never survives it. `MboxLengths.LengthExactly` is the exact condition for
  the message that says the length, and `MboxRoundTrip.RoundTripExactly` for the whole file.
- **A rejected length can cut a line in two.** No byte is lost, but the lines are the same if and only if the cut fell on a
  line's end (`MboxSound.SegmentationKept`).
- **With `;` as the separator** a Maildir name is read back if and only if its unique part has no colon. The names
  `unique` makes have none (`Maildir.NameRoundTrip`, `Maildir.UniqueNameRoundTrip`).
- **A send queued for a moment no later than the one its account was last asked for** is not told for as long as it stays
  queued, one for that very moment too (`Outbox.LateRun`, `Outbox.LateIsNeverTold`). A moment that stays queued is told
  between two states if and only if the account was asked past it in between (`Outbox.PassedOverExactly`).
- **A batch that outlives its key** leaves `missed` set for whoever registers the key next, and nothing else does
  (`Relay.StrayExactly`, `Relay.StrayMissed`).

- **A ticket can say a generation that no value reaches.** An act's ticket takes the store's generation after the act has run,
  so it counts whatever another thread committed meanwhile. A value read between the two has the act in it and says a generation
  that counts it (`LiveWrites.WritesAreShown`), but less than the ticket's; and if the other commit touched nothing it reads, it
  is not read again. What is kept until `as_of` reaches the ticket's generation is then kept although the client is settled
  (`LiveTickets.TicketOutrun`). It does reach it where no other commit was counted between the act's last and its ticket
  (`LiveWrites.TicketsAreReached`).
- **The sweep of the registry is not paid for once.** It is made as the map "doubles", by the number of buckets being a power of
  two, but that number is the same when a query let go of is asked again while its bucket is there: every bucket is looked at
  each time, and the map is as it was (`LiveRegistry.RemadeIsSweptAgain`).

## Model

| member | source | states |
|---|---|---|
| LiveAtRest.NoLostInvalidation | crates/mail-client/src/client.rs:727-813 | in every interleaving, once the client is idle with nothing unheard, each held value was read after everything that touched its topics, is no longer `Loading`, and if `Ready` is what the query answers on the database as it is now; at the clock as it is too, unless the clock moved as the reading was about to begin |
| LiveAtRest.ExclusiveOwnership | crates/mail-client/src/live.rs:219-338 | in every reachable state no entry is both queued and running; one is in the queue at most once and then in no thread's hand; no two threads have the same one; it is running exactly when one thread reads it; and a held one marked queued really is in the queue or a hand, unless the client is stopping |
| LiveAtRest.IdleMeansNothingInHand | crates/mail-client/src/client.rs:448-451 | `busy` at zero means an empty queue and no thread with a job it counted, through requeues, dropped entries and failed upgrades; and `busy` is never negative |
| LiveAtRest.ReadYourOwnWrite | crates/mail-client/src/act.rs:146-188 | a value `Ready` at a generation no lower than a ticket's is the answer on a database that has every commit of that act and of every act before it |
| LiveSteps.ActsCommitsCounted | crates/mail-client/src/act.rs:181-188 | every commit of an act is counted by what its ticket stands for |
| LiveSteps.OwnWritesAreRead | crates/mail-client/src/act.rs:181-188 | of the steps of any run: a value `Ready` at or after a ticket's generation was read after each commit step of that act, and is the answer of the database it was read of |
| LiveWrites.WritesAreShown | crates/mail-client/src/live.rs:285-302 | after a commit that touched what a value reads, once the client is settled the generation the value says is one that counts the commit |
| LiveWrites.TicketsAreReached | crates/mail-ui-kit/src/list_query.rs:85-97 | of an act's last commit, such a value's generation counts the whole act, and is the ticket's or later if no other commit was counted between the act and its ticket |
| LiveTickets.TicketOutrun | crates/mail-client/src/act.rs:181-188 | a run to a settled client whose value has the act in it and says generation 1, where the act's ticket says 2 |
| LiveWrites.InvalidationsAreMade | crates/mail-client/src/client.rs:726-760 | after a caller's `invalidate`, once the client is settled every value held that reads one of its topics has been read again by a reading begun after it |
| LiveAtRest.TellingIsExact | crates/mail-client/src/live.rs:303-337 | when no thread is between a reading's end and its telling, `told` counts the readings that were news and `read` all of them; two snapshots that look different have a telling between them, a reading that answered as before has none; and `as_of` never goes back |
| LiveShown.ToldExactly | crates/mail-client/src/live.rs:303-337 | when no thread is between a reading's end and its telling, the tellings are one for each reading but those that answer what was answered just before: one for every failure, and for every answer after one |
| LiveShown.FailuresKeepTheLast | crates/mail-client/src/live.rs:303-326 | in every run, whatever an entry showed that was not `Ready` held the last value that had been, and none if none had |
| LiveShown.ReadingsShow | crates/mail-client/src/live.rs:303-326 | after any outcomes in order, what shows is the last one: its answer and generation, or its failure with the last answer there was among them |
| LiveAtRest.ActsInOrder | crates/mail-client/src/client.rs:203-214 | what was applied is always a prefix of what was given, no act twice, and all of it once none waits, stopping or not; none that was refused is applied or waits |
| LiveAtRest.RefusedForGood | crates/mail-client/src/client.rs:322-342 | an act given after the stop closed the acts is refused, and in every later state is neither taken nor applied: its ticket resolves to nothing |
| LiveSteps.ClosedForGood | crates/mail-client/src/client.rs:565-568 | in every run, an act given after the acts were closed is refused and never applied |
| LiveSteps.StoppedForGood | crates/mail-client/src/client.rs:763-783 | in every run, once the client is told to stop nothing is taken from the queue and no reading is put back in it |
| LiveAtRest.IdleExactly | crates/mail-client/src/client.rs:448-451 | a client not stopping that says it is idle has no live entry queued or being read if and only if no thread is between marking one and counting it |
| LiveAtRest.OneEntryAQuery | crates/mail-client/src/client.rs:266-312 | in every run two held entries of equal queries are the same entry |
| LiveSteps.HoldersAreCounted | crates/mail-client/src/live.rs:116-130 | in every run a value is held by its first holder and those it was handed to since, less those that let go |
| LiveSteps.TakenInOrder | crates/mail-client/src/client.rs:714-775 | in every run the entries taken to be read, and then the queue, are the entries put in it, in that order |
| LiveAtRest.HeldIsAtRest | crates/mail-client/src/live.rs:266-338 | in a settled state every mark ever made on a live entry was followed by a reading begun after it |
| LiveAtRest.AnswerStays | crates/mail-client/src/live.rs:14-33 | over any stretch of history that touched none of a query's topics its answer is unchanged, the clock too if it reads it |
| LiveClock.ClockExactly | crates/mail-client/src/client.rs:777-783 | a query's settled values are current in every run if and only if its own answer does not depend on the clock |
| LiveSteps.CurrentUnlessMoved | crates/mail-client/src/client.rs:777-783 | of an entry for which the clock was never moved between a thread's taking it and its beginning to read, the settled value is current whatever its query reads |
| LiveClock.StaleRun | crates/mail-client/src/client.rs:777-783 | a complete run to a settled client that shows the answer of a clock that has moved on, for any query whose answer depends on it |
| LiveClock.IdleIsNotSettled | crates/mail-client/src/client.rs:714-724 | a run to a client that says it is idle, nothing unheard, with a held value still `Loading` and not yet counted |
| LiveQuiescence.WorkGrowsLess | crates/mail-client/src/client.rs:763-786 | every step of the client's own, in any state, strictly lessens a measure of the work left |
| LiveQuiescence.WorkEnds | crates/mail-client/src/client.rs:763-813 | however the client's own steps are taken there are at most as many as that measure |
| LiveQuiescence.GoesOn | crates/mail-client/src/client.rs:763-813 | a client with anything left to do can always take a step: nothing waits for ever on something else |
| LiveQuiescence.ComesToRest | crates/mail-client/src/client.rs:565-585 | from every reachable state the client's own steps end; where they do, every act it took is applied in order even while stopping, and otherwise it is settled with every held value at rest |
| LiveTheorems.InvNext | crates/mail-client/src/client.rs:714-813 | every step of every thread keeps the whole invariant |
| LiveTheorems.InvRun | crates/mail-client/src/client.rs:188-238 | the invariant holds in every state of every run |
| LiveOwnership.FlaggedMarks | crates/mail-client/src/live.rs:266-277 | marking keeps the flags in step with where each entry is |
| LiveOwnership.FlaggedEnds | crates/mail-client/src/live.rs:303-332 | so does ending a reading, requeueing and letting go |
| LiveFreshness.FreshMarks | crates/mail-client/src/client.rs:745-759 | a change that touched an entry after its reading began is never forgotten on its way through hearing, collecting and marking |
| LiveFreshness.FreshReads | crates/mail-client/src/live.rs:279-302 | a reading that begins settles what came before it and nothing that comes after |
| LiveValues.HonestReads | crates/mail-client/src/live.rs:285-294 | the generation taken before a reading is one whose every commit the reading saw |
| LiveCounts.BusyReads | crates/mail-client/src/client.rs:763-786 | `busy` stays the queue's length plus what threads have counted, through taking, upgrading and giving up |
| LiveActs.TicketsOutside | crates/mail-store/src/changes.rs:141-176 | a ticket's generation counts every commit of its act, and tickets' generations never decrease |
| LiveEntry.NewsIsWhatShows | crates/mail-client/src/live.rs:305-326 | a reading that changes what shows is news, an equal answer to a `Ready` value is not, and an answer that is news shows |
| LiveEntry.LiveEntry.constructor | crates/mail-client/src/live.rs:229-243 | a new entry is loading and marked queued |
| LiveEntry.LiveEntry.Stale | crates/mail-client/src/live.rs:266-277 | asks for the queue exactly when the entry is neither queued nor running; afterwards it is queued or will be read again |
| LiveEntry.LiveEntry.RunBegin | crates/mail-client/src/live.rs:279-284 | the entry becomes the one the protocol's `Begin` step makes of it |
| LiveEntry.LiveEntry.RunEnd | crates/mail-client/src/live.rs:303-332 | the entry becomes the one the protocol's `End` step makes of it, says whether that was news, and a mark made meanwhile asks for the queue; what that comes to over any readings is `LiveShown.ReadingsShow` |
| LiveEntry.LiveEntry.Run | crates/mail-client/src/live.rs:279-338 | a reading nobody marks meanwhile leaves the entry at rest, counted once and told only if news, and asks for nothing more |
| LiveInline.ThreadedShowsInline | crates/mail-client/src/client.rs:240-255 | a settled threaded client and a settled inline one, come to the same database and clock, show the same value for an equal query |
| LiveInline.InlineClient.constructor | crates/mail-client/src/client.rs:243-255 | an inline client begins with nothing held and nothing unheard |
| LiveInline.InlineClient.Commit | crates/mail-client/src/client.rs:246-250 | a commit waits to be acted on, and every held value it did not touch is current still |
| LiveInline.InlineClient.ReadNow | crates/mail-client/src/live.rs:289-302 | a reading answers what the query answers now, or fails |
| LiveInline.InlineClient.Enqueue | crates/mail-client/src/client.rs:714-719 | the loop over `run` reads once, leaving the entry current, at rest and as of the generation there is, and no other changed |
| LiveInline.InlineClient.Invalidate | crates/mail-client/src/client.rs:745-759 | exactly the held entries that read one of the topics are read again, as of the generation there is, and every other is as it was |
| LiveInline.InlineClient.Settle | crates/mail-client/src/client.rs:689-703 | afterwards nothing is unheard and every held value is current |
| LiveInline.InlineClient.SetClock | crates/mail-client/src/client.rs:373-379 | an inline client has no such moment as the threaded one: after a clock move with no commit unheard every held value is current |
| LiveInline.InlineClient.Live | crates/mail-client/src/client.rs:266-312 | a query someone holds is handed over and nothing is read; one nobody holds is read now; no two held entries are of equal queries |
| LiveInline.InlineClient.Drop | crates/mail-client/src/live.rs:116-130 | letting go of a value changes no other |
| LiveRegistry.Retain | crates/mail-client/src/client.rs:287-289 | keeps exactly the pairs whose entry is held |
| LiveRegistry.PushKeeps | crates/mail-client/src/client.rs:283-292 | registering a query nobody holds keeps every held entry registered and each bucket one pair a query |
| LiveRegistry.SweepKeeps | crates/mail-client/src/client.rs:293-300 | the sweep removes no held entry, and every dead one |
| LiveRegistry.NoneHeld | crates/mail-client/src/client.rs:277-285 | if the first pair for a query is dead, or there is none, no held entry is of that query |
| LiveRegistry.Registry.constructor | crates/mail-client/src/client.rs:175-182 | an empty registry is right for nothing held |
| LiveRegistry.Registry.Live | crates/mail-client/src/client.rs:266-306 | a new entry is made if and only if nobody holds the query; then and otherwise every held entry is found by its query and by the change thread, one a query |
| LiveRegistry.Registry.Register | crates/mail-client/src/client.rs:285-303 | the new entry is registered with every held one still there; if the buckets are then as many as a power of two, every dead one is let go of, and otherwise only those of its own bucket |
| LiveRegistry.Registry.Sweep | crates/mail-client/src/client.rs:293-300 | if the number of buckets is a power of two, every pair left is of an entry held and no bucket is empty, with none held lost; otherwise nothing is changed |
| LiveRegistry.RemadeIsSweptAgain | crates/mail-client/src/client.rs:283-300 | a query let go of and asked again, its bucket being one of as many as a power of two, sweeps every bucket and leaves as many: no doubling comes before it |
| LiveRegistry.Registry.Find | crates/mail-client/src/client.rs:277-282 | the first pair of an equal query, if any |
| LiveRegistry.Registry.Collect | crates/mail-client/src/client.rs:745-754 | hands out exactly the held entries that are wanted, each once, and lets go of exactly the dead ones |
| LiveRegistry.LiveStep | crates/mail-client/src/client.rs:266-312 | a query asked of the registry is the protocol's step, a new entry exactly where it makes one, and the registry is right for the state after |
| LiveRegistry.CollectStepOf | crates/mail-client/src/client.rs:745-754 | what the registry hands out is what the protocol's collecting step takes |
| LiveRegistry.StepServes | crates/mail-client/src/client.rs:266-306 | every other step of the protocol leaves the registry right with nothing done to it |
| LiveRegistry.Registry.Dropped | crates/mail-client/src/client.rs:293-300 | entries let go of need nothing done: what is still held is still found |
| Bytes.LinesFlatten | crates/mail-archive/src/lib.rs:173-176 | the lines of a text joined are the text |
| Bytes.WellSplitIs | crates/mail-archive/src/lib.rs:173-176 | pieces are what their bytes split into if and only if each is a line and each but the last ends in LF |
| Bytes.LinesOfFlatten | crates/mail-archive/src/lib.rs:173-176 | terminated lines joined before any text split into those lines and the text's |
| Bytes.LinesConcat | crates/mail-archive/src/lib.rs:173-176 | splitting after an LF and splitting each side gives the same lines |
| Bytes.ToLf | crates/mail-archive/src/lib.rs:158-171 | the loop computes the text with the CR of every CRLF left out and everything else kept |
| Bytes.LfDrops | crates/mail-archive/src/lib.rs:158-171 | the Unix form is what is at all positions but those of a CR right before an LF |
| Bytes.ToCrlf | crates/mail-archive/src/lib.rs:142-156 | the loop computes a text in which every LF has a CR right before it; one of which that is so already as it is; and any as it is but for CRs put in, each before an LF that had none |
| Bytes.CrlfIsWired | crates/mail-archive/src/lib.rs:142-156 | in the wire form of every text each LF has a CR right before it |
| Bytes.WiredStays | crates/mail-archive/src/lib.rs:142-156 | a text of which that is so already is its own wire form |
| Bytes.CrlfAdds | crates/mail-archive/src/lib.rs:142-156 | without the CRs put in, the wire form is the text, and each was put before an LF that had none |
| Bytes.LfOfCrlf | crates/mail-archive/src/lib.rs:142-171 | for every text the Unix form of its wire form is its Unix form |
| MboxFormat.QuoteUndone | crates/mail-archive/src/mbox.rs:355-371 | for every line, quoting is undone by unquoting, and what is written never begins `From ` |
| MboxFields.ContentLengthExactly | crates/mail-archive/src/mbox.rs:374-385 | for every line of a name, a colon and a value, it says the length `n` if and only if the name is `Content-Length`, each letter in either case, and the value is digits worth `n` by their places, at most `usize`'s largest, perhaps after a `+`, with white space around them |
| MboxFields.NoColonSaysNothing | crates/mail-archive/src/mbox.rs:374-377 | a line with no colon says none |
| MboxFields.LengthSaidIsLast | crates/mail-archive/src/mbox.rs:138-144 | the length said by header lines is that of the last that says one |
| MboxFields.HeadersAre | crates/mail-archive/src/mbox.rs:135-149 | the headers of any pieces are those up to and with the first blank one, the length they say is the last line's that says one, and the others are left |
| MboxFields.EnvelopeExactly | crates/mail-archive/src/mbox.rs:392-405 | a `From ` line is taken for an envelope if and only if it is white space or none, a sender, a space, and something with a time of day in it |
| MboxFields.ScanIs | crates/mail-archive/src/mbox.rs:204-225 | a scan of any pieces takes them, unquoted, up to the first envelope line that comes after a blank one, and no further or less far |
| MboxFields.ProseIsBody | crates/mail-archive/src/mbox.rs:387-391 | lines of which none that begins `From ` has a time of day in it are all body, whatever blank lines are among them |
| MboxFields.BoundaryIs | crates/mail-archive/src/mbox.rs:180-192 | a boundary is blank lines or none, and then the end or a line that begins `From ` |
| MboxFields.StripIs | crates/mail-archive/src/mbox.rs:218-224 | what ends in two LFs loses one, what ends in two CRLFs loses one of them, and nothing else loses anything |
| MboxFields.LineEnds | crates/mail-archive/src/lib.rs:178-182 | a CRLF or an LF is no part of what a line says, and nothing else is left off |
| MboxFields.EitherEnd | crates/mail-archive/src/lib.rs:178-182 | a line is blank, says a length, is an envelope and says a sender and date the same, whether a CRLF ends it or an LF |
| MboxFields.SenderIs | crates/mail-archive/src/mbox.rs:257-267 | white space anywhere in a sender makes no difference to what is written, and one without any is written as it is, in UTF-8, or as `MAILER-DAEMON` if it is empty |
| MboxFields.FormattedIsDate | crates/mail-archive/src/mbox.rs:268-269 | whatever is on one line around a time of day is a date the reader finds |
| MboxFormat.WriteLines | crates/mail-archive/src/mbox.rs:270-275 | the loop appends each line, quoted if it must be |
| MboxFormat.Write | crates/mail-archive/src/mbox.rs:256-280 | appends the envelope line, the quoted Unix form, a final newline if there was none, and the blank line between messages |
| MboxReader.Reader.constructor | crates/mail-archive/src/mbox.rs:83-90 | what is pending is the source's lines |
| MboxReader.Reader.ReadUntil | crates/mail-archive/src/mbox.rs:96-100 | the loop takes exactly the source's first line |
| MboxReader.Reader.Line | crates/mail-archive/src/mbox.rs:92-101 | hands out the first pending piece, pushed back or not, and nothing exactly at the end |
| MboxReader.Reader.Unread | crates/mail-archive/src/mbox.rs:103-105 | a piece handed back is pending first |
| MboxReader.Reader.UnreadAll | crates/mail-archive/src/mbox.rs:193-195 | pieces handed back in reverse are pending in order |
| MboxReader.Reader.UnreadBytes | crates/mail-archive/src/mbox.rs:107-113 | bytes handed back are pending as their lines |
| MboxReader.Reader.EnvelopeLine | crates/mail-archive/src/mbox.rs:115-127 | passes over blank lines to the first that is not, and says it, the end, or that this is not an mbox |
| MboxReader.Reader.Headers | crates/mail-archive/src/mbox.rs:135-149 | takes lines up to and with the first blank one, and the last length among them; what a line says is `MboxFields.ContentLengthExactly` |
| MboxReader.Reader.TakePart | crates/mail-archive/src/mbox.rs:170-178 | takes the next line, or the bytes of it there is room for and hands back the rest, and what is taken in all stays the same |
| MboxReader.Reader.TakeBytes | crates/mail-archive/src/mbox.rs:169-179 | takes the first `n` bytes or all there are, leaving the rest of a line it cut pending |
| MboxReader.Reader.ReadAfter | crates/mail-archive/src/mbox.rs:180-192 | finds whether blank lines and a `From ` line, or blank lines and the end, come next |
| MboxReader.Reader.LookAfter | crates/mail-archive/src/mbox.rs:180-195 | answers that with everything read handed back |
| MboxReader.Reader.CountedBody | crates/mail-archive/src/mbox.rs:164-202 | accepts exactly a length that fits; where it does not, `raw` is as it was and what is pending is put back |
| MboxReader.Reader.BodyLine | crates/mail-archive/src/mbox.rs:209-213 | an envelope line after a blank one is handed back |
| MboxReader.Reader.ScanLines | crates/mail-archive/src/mbox.rs:208-216 | takes lines, unquoted, up to the first envelope line after a blank one |
| MboxReader.Reader.ScannedBody | crates/mail-archive/src/mbox.rs:204-225 | the message scanned, its separating blank line left off |
| MboxReader.Reader.ReadMessage | crates/mail-archive/src/mbox.rs:129-162 | one message read is what the parse of the pending lines says, and leaves what it says |
| MboxReader.Reader.ReadBody | crates/mail-archive/src/mbox.rs:154-161 | a body is counted where the length is believed and fits, else scanned, and after a rejection no length is believed any more |
| MboxReader.Reader.ReadRest | crates/mail-archive/src/mbox.rs:135-161 | after the envelope line: headers, a counted body or a scanned one, and whether lengths lie from now on |
| MboxReader.Reader.Next | crates/mail-archive/src/mbox.rs:231-249 | the next message, an error once, and after an error or the end nothing more |
| MboxSound.TakeConserves | crates/mail-archive/src/mbox.rs:168-179 | counting takes bytes off the front and leaves the others in order, and too few only where there are no more |
| MboxSound.RejectedLengthUndone | crates/mail-archive/src/mbox.rs:164-202 | after a rejection the bytes still to be read are exactly those there were |
| MboxSound.CutsCleanMeans | crates/mail-archive/src/mbox.rs:172-178 | a cut is clean exactly when the length is that of some first lines or at least that of all |
| MboxSound.SegmentationKept | crates/mail-archive/src/mbox.rs:107-113 | after a rejection the lines are as they were if and only if the cut was clean; else there is one more |
| MboxSound.RejectedReadsTheSame | crates/mail-archive/src/mbox.rs:154-161 | after a clean rejection the message and everything left are as with that length disbelieved |
| MboxSound.CutIs | crates/mail-archive/src/mbox.rs:172-179 | a length that cuts a line leaves its two parts where it was, and the second next to be read |
| MboxRuns.SplitsAtBoundary | crates/mail-archive/src/mbox.rs:180-226 | after any message what is left begins at a boundary, so the next thing said is a message or the end; and fewer bytes are left |
| MboxRuns.OnlyFirstIsNotMbox | crates/mail-archive/src/mbox.rs:116-127 | over a whole file only the first thing said can be `NotMbox`, and nothing is where a boundary comes first |
| MboxRuns.OneLie | crates/mail-archive/src/mbox.rs:59-62 | over a whole file at most one length is rejected |
| MboxRuns.RestIsEnd | crates/mail-archive/src/mbox.rs:92-113 | what is left after any reading, lengths believed or not, is the last bytes there were, so a byte keeps its name |
| MboxCounted.CountedFile | crates/mail-archive/src/mbox.rs:129-202 | a whole file of messages of which each says the length of its body, of at most 64 MiB, is read as exactly those messages, whatever lines their bodies have: envelopes, quoted lines and blank ones are body, and nothing is unquoted |
| MboxCounted.SaidInAnyCase | crates/mail-archive/src/mbox.rs:374-385 | a header says that length whatever the case of the letters of its name and the white space around the number |
| MboxCounted.TooLongIsScanned | crates/mail-archive/src/mbox.rs:154-161 | a body said to be longer than 64 MiB is read as though nothing was said |
| MboxWork.TakenAt | crates/mail-archive/src/mbox.rs:168-179 | counting hands out each byte of the body once, and of what is left only the rest of a line it cut |
| MboxWork.ScanPays | crates/mail-archive/src/mbox.rs:204-225 | a scan, and what is left after it, hand out each byte no oftener than its credit: three times while lengths are believed, then twice in a line that begins `From ` and once in any other |
| MboxWork.RejectedPays | crates/mail-archive/src/mbox.rs:164-202 | a rejected length, and the scan of what it puts back, hand out each byte at most three times |
| MboxWork.EachByteThrice | crates/mail-archive/src/mbox.rs:92-113 | reading any file whole, with any lengths in it, hands out each byte of it at most three times, and nothing else |
| MboxWork.LinearWork | crates/mail-archive/src/mbox.rs:92-113 | and so all that is handed out comes to at most three times the file's size |
| MboxWork.ReadFile | crates/mail-archive/src/mbox.rs:228-250 | the iterator ends, says what the parse of the file says, only its first item can be `NotMbox`, and its reader handed out each byte at most three times |
| MboxWritten.ReadBackIsDelivered | crates/mail-archive/src/mbox.rs:139-149 | what is read back of a message is its LF form with a final newline, an empty one a newline, if and only if no header line is `^>*From ` |
| MboxWritten.EnvelopeLineReads | crates/mail-archive/src/mbox.rs:256-268 | for every sender, the envelope line written is one line, is taken for an envelope, and says the sender without white space and the date |
| MboxWritten.HeadersTaken | crates/mail-archive/src/mbox.rs:135-149 | the headers read of a written message are its own as they were quoted, or all of it and the blank line after it, and what is left is its body |
| MboxWritten.ScannedFront | crates/mail-archive/src/mbox.rs:204-225 | a written message's body scanned is the body, and what comes after it is left |
| MboxLengths.BeginsQuoted | crates/mail-archive/src/mbox.rs:270-275 | a body is a prefix of what it is written as only if nothing in it was quoted |
| MboxLengths.CutInBody | crates/mail-archive/src/mbox.rs:173-175 | a written body with one line in two parts is scanned to the body if and only if the parts are unquoted to the line |
| MboxLengths.LaterReads | crates/mail-archive/src/mbox.rs:209-213 | with the next envelope line in two parts, the message comes back if and only if the first is one still; with a later line, always; and the parts are left |
| MboxLengths.ExplainedExactly | crates/mail-archive/src/mbox.rs:135-149 | whatever a length made of a message, it comes back as it was if and only if it does as it was written and no header line is quoted |
| MboxLengths.LengthExactly | crates/mail-archive/src/mbox.rs:154-202 | every message that says a believed length, whatever is written after it, comes back if and only if `ComesBack`: accepted, the length is true and nothing is quoted; rejected, no line was cut, or the parts of a body line are unquoted to it, or the first part of the next envelope line is one, or the cut was later |
| MboxCuts.PlainReads | crates/mail-archive/src/mbox.rs:135-225 | any lines or parts of lines of which none begins `From `, read with no length believed, are their headers as they are and the rest unquoted |
| MboxCuts.LineCutExactly | crates/mail-archive/src/mbox.rs:135-225 | a message's quoted lines, any one cut anywhere, are read back as the message if and only if the cut is harmless, in the body or in the headers |
| MboxCuts.EnvelopeCutReads | crates/mail-archive/src/mbox.rs:116-149 | a message whose envelope line is cut and still one never comes back: its date is cut short, or it gains a newline |
| MboxRoundTrip.FirstReads | crates/mail-archive/src/mbox.rs:129-225 | a message written before others comes back if and only if it is safe, and then they are left, with a line in two parts if its length cut one |
| MboxRoundTrip.CutReadsExactly | crates/mail-archive/src/mbox.rs:204-250 | messages pending with one line in two parts, no length believed any more, all come back if and only if the cut does the message it is in no harm |
| MboxRoundTrip.RoundTripExactly | crates/mail-archive/src/mbox.rs:129-225 | any messages written one after another are read back in order, as many as there were, if and only if they are writable |
| MboxRoundTrip.PlainIsWritable | crates/mail-archive/src/mbox.rs:256-280 | messages of which each says no believed length, or a true one with nothing quoted, are writable |
| MboxRoundTrip.RoundTrip | crates/mail-archive/src/mbox.rs:252-280 | messages are read back, from their senders (`MAILER-DAEMON` if none is left) at their dates, headers as they were quoted, if and only if they are writable |
| MboxRoundTrip.RoundTripDelivers | crates/mail-archive/src/mbox.rs:252-280 | what a reader gets of messages is each in its LF form with a final newline if and only if they are writable with their headers as they are |
| MboxRoundTrip.DeliversExactly | crates/mail-archive/src/mbox.rs:135-149 | which is, where no rejected length ends a later message's headers, that they are writable and no header line of any is quoted |
| MboxLosses.UntrueLengthLoses | crates/mail-archive/src/mbox.rs:180-200 | what a reader gets of a file of one message, its body a blank line and its length zero, is not that message |
| MboxLosses.CutQuotingStays | crates/mail-archive/src/mbox.rs:173-175 | what a reader gets of a file of one message, its body `From x` and its length 3, is not that message, and would be with no length believed |
| MboxLosses.HeaderQuoteStays | crates/mail-archive/src/mbox.rs:270-275 | what a reader gets of a file of one message, the header line `>From x`, is not that line |
| MboxLosses.LaterQuotingStays | crates/mail-archive/src/mbox.rs:173-200 | after a message whose length 41 cuts a quoted line of it, a message that says no length does not come back, and alone it does |
| MboxLosses.CutUnquotes | crates/mail-archive/src/mbox.rs:173-200 | after a message whose length 36 cuts its first header line before the LF, a message with a quoted header line comes back as it was, and alone it does not |
| Maildir.NameRoundTrip | crates/mail-archive/src/maildir.rs:73-104 | for every unique part and flags, a name with `:` gives back the unique part and the flags in order once each; with `;`, if and only if the unique part has no colon |
| Maildir.OldNameRoundTrip | crates/mail-archive/src/maildir.rs:73-96 | with `!`, the separator of the third kind, a name is read back if and only if there is no colon and no semicolon in its unique part |
| Maildir.PlainName | crates/mail-archive/src/maildir.rs:68-84 | a name with no separator, or with anything but `2,` after the last, is all unique part and has no flags |
| Maildir.LettersRead | crates/mail-archive/src/maildir.rs:37-48 | the flags read are those of the letters D, F, P, R, S and T, in any order and among any others, in that order once each |
| Maildir.LettersWritten | crates/mail-archive/src/maildir.rs:26-36 | the letters written are those of the flags, in that order once each |
| Maildir.TidyTwice | crates/mail-archive/src/maildir.rs:98-104 | sorting and dropping repeats changes nothing the second time and loses no flag |
| Maildir.UniqueInjective | crates/mail-archive/src/maildir.rs:117-138 | names made of different seconds, microseconds, processes or counts differ, whatever the hosts |
| Maildir.UniqueSays | crates/mail-archive/src/maildir.rs:130-138 | a name made says, in this order, the seconds, after `.M` the microseconds, after `P` the process, after `Q` the count, each as digits worth it, and after a dot the host |
| Maildir.HostEscaped | crates/mail-archive/src/maildir.rs:131-133 | each slash of a host is written `\057` and each colon `\072`, nothing else of it is changed, and no host is `localhost` |
| Maildir.UniqueClean | crates/mail-archive/src/maildir.rs:130-138 | a name made has neither a slash nor a colon, whatever the host |
| Maildir.UniqueNameRoundTrip | crates/mail-archive/src/maildir.rs:97-138 | a name made for a message is read back on every platform |
| Maildir.PlacedFlags | crates/mail-archive/src/maildir.rs:177-193 | the loop gives `Seen` exactly for `S` under `cur`, and flagged, answered and draft exactly for `F`, `R` and `D` under either directory, in order once each, and trash exactly for `T` |
| Maildir.SystemFlagsRoundTrip | crates/mail-archive/src/maildir.rs:177-209 | system flags written into a name whose separator is found again and placed from `cur` are the ones that set out, in order once each |
| Maildir.FoundAgain | crates/mail-archive/src/maildir.rs:97-209 | a message written under a name made for it, with either separator, and found in `cur` has the system flags it had and is not in the trash |
| MaildirFolders.SplitJoin | crates/mail-archive/src/maildir.rs:157-171 | parts without the separator, joined and split, are those parts |
| MaildirFolders.JoinSplit | crates/mail-archive/src/maildir.rs:144-151 | any text split and joined is that text, and no part holds the separator |
| MaildirFolders.FolderRoundTrip | crates/mail-archive/src/maildir.rs:140-171 | for every path, its directory holds the path cleaned if it names anything and no folder otherwise |
| MaildirFolders.DirIs | crates/mail-archive/src/maildir.rs:140-171 | the directory of levels it can hold is a dot and the levels joined by dots, and holds the folder of those levels joined by slashes |
| MaildirFolders.EmptyPartsSkipped | crates/mail-archive/src/maildir.rs:157-161 | a slash doubled, first or last makes no difference |
| MaildirFolders.CleanPathStays | crates/mail-archive/src/maildir.rs:157-171 | cleaning a path twice is cleaning it once, and the directory is the same |
| MaildirFolders.DirRoundTrip | crates/mail-archive/src/maildir.rs:140-171 | a directory is that of the folder it holds if and only if no level is empty and none has anything cleaned away |
| ExternalWatch.SeenIsLastRead | crates/mail-client/src/external.rs:106-119 | after any looks, the version seen is the last that could be read |
| ExternalWatch.LastReadIs | crates/mail-client/src/external.rs:106-119 | which is one some turn read, no later one having been readable, or the one at the start where none was |
| ExternalWatch.Look | crates/mail-client/src/external.rs:85-121 | the loop marks everything stale once for each time the version read differed from the one before; it waits 50 milliseconds where a look is owed, 15 seconds where it is not and writes are heard of, and 2 seconds where they are not |
| ExternalWatch.OwedExactly | crates/mail-client/src/external.rs:108-115 | a look is owed if and only if a heard write has met no readable look since, or the last readable look heard one and found nothing moved |
| ExternalWatch.EarlyWriteLookedAtOnce | crates/mail-client/src/external.rs:89-115 | a write heard too early gets one more look, soon, and no further one unless another is heard |
| ExternalWatch.CommitsHeardOnce | crates/mail-client/src/external.rs:106-119 | a look marks everything stale exactly when it could read and there were commits since the last that could; never oftener than there were commits |
| Outbox.Turn | crates/mail-client/src/fetch.rs:555-592 | one account's turn tells exactly a moment that is due with a link that is not busy, remembers it, and never lengthens the wait |
| Outbox.Round | crates/mail-client/src/fetch.rs:547-593 | every account is looked at once, after all it was asked for so far; and the wait is the shortest any look asks for, nothing after a telling, a second where what is due has a busy link, and at most sixty seconds |
| Outbox.InvRun | crates/mail-client/src/fetch.rs:539-598 | in every run what an account was told and what it was asked up to agree |
| Outbox.WakesInOrder | crates/mail-client/src/fetch.rs:556-592 | in every run the moments told an account strictly increase, each after the fetching began and due when told, and none while its link is busy |
| Outbox.PassedOverExactly | crates/mail-client/src/fetch.rs:555-592 | a moment queued at every state from one to another is told in between if and only if the account had not been asked past it at the first and has been at the last |
| Outbox.LateIsNeverTold | crates/mail-client/src/fetch.rs:556-562 | a send queued for a moment its account has been asked for or past is not told while it is queued |
| Outbox.LateRun | crates/mail-client/src/fetch.rs:556-592 | runs in which such a send is queued, for the moment just told or any earlier |
| Outbox.FutureIsTold | crates/mail-client/src/fetch.rs:536-546 | a send queued for a moment still to come is told as the account is asked past it |
| Outbox.DueIsTold | crates/mail-client/src/fetch.rs:555-592 | in every run a look that can read the queue of a link that is not busy tells the earliest moment queued after the last one asked for, if it has come |
| Relay.Same | relay/src/graph.ts:198-209 | the fold over every character answers whether two strings are equal |
| Relay.MakeFrames | relay/src/graph.ts:236-257 | the loop makes a frame of each notification of the registered client state and of no other, saying what that one does, in order |
| Relay.FramesAre | relay/src/graph.ts:236-257 | the frames are one for each notification whose client state has the registered hash, in their order, each with that one's fields |
| Relay.SendAll | relay/src/graph.ts:262-273 | every socket is sent a prefix of the frames, and the batch counts as heard exactly when one took them all |
| Relay.GraphRelay.constructor | relay/src/graph.ts:212-217 | a key's object begins with nothing kept |
| Relay.GraphRelay.Touch | relay/src/graph.ts:315-317 | the alarm is thirty days from now |
| Relay.GraphRelay.Register | relay/src/graph.ts:219-228 | a key registered already is left as it was |
| Relay.GraphRelay.Notified | relay/src/graph.ts:230-276 | each socket gets a prefix of the matching notifications and a socket that takes all gets one frame for each; a batch with none matching sends nothing and changes nothing; `missed` is set if no socket took the whole of one with some |
| Relay.GraphRelay.Fetch | relay/src/graph.ts:278-296 | a listener is let in exactly with the listening token, and `missed` is unset exactly when it was told |
| Relay.GraphRelay.Alarm | relay/src/graph.ts:310-313 | everything kept is forgotten, the sockets stay |
| Relay.InvRun | relay/src/graph.ts:310-317 | in every run the alarm is thirty days after the last use, and a registered key has one |
| Relay.MissedStands | relay/src/graph.ts:274-291 | in every run what was missed stays so until a listener is told or the key is forgotten |
| Relay.AlertsKept | relay/src/graph.ts:230-296 | in every run a batch with something to pass on was sent whole to a socket, or is kept as missed at every later state unless a listener was told or the key forgotten |
| Relay.MissedHasCause | relay/src/graph.ts:274-291 | and nobody is told for nothing: `missed` is set only by a batch no socket took whole, since the last listener told and the last forgetting |
| Relay.RegistrationStands | relay/src/graph.ts:219-228 | in every run a registration is the same until the key is forgotten |
| Relay.ForgottenOnlyUnused | relay/src/graph.ts:310-317 | in every run a key is forgotten only when thirty days have gone by since each use of it that nothing forgot already |
| Relay.AlarmIsSet | relay/src/graph.ts:310-317 | and while nothing uses or forgets it after a use, the alarm stands thirty days after that use |
| Relay.ListenersStay | relay/src/graph.ts:286-296 | in every run a listener let in is among the sockets until it closes |
| Relay.StrayExactly | relay/src/graph.ts:231-276 | an unregistered key says something was missed if and only if a batch outlived the key it was posted to |
| Relay.StrayMissed | relay/src/graph.ts:231-276 | a run to such a state |

## Left out

- LiveAtRest.NoLostInvalidation: says nothing of a client that is stopping, whose readers leave the queue as it is.
- LiveInline.ThreadedShowsInline: two readings that failed may differ, since a failure may come at any time; the values compared are `Ready`, at one last database and clock.
- LiveQuiescence.GoesOn: any resting thread may take any part, so it does not say that a thread of a kind is free, or woken, to take up its own.
- LiveQuiescence.ComesToRest: a client that is stopping goes on hearing and looking in the model, where the source's two loops end; of such a client only the acts are claimed.
- MboxReader.Reader.Next: a failed read of the source, which also ends the iterator, is not modelled; the source is a sequence of bytes.
- ExternalWatch.Look: what is heard and read at each turn is an input, and panics, stopping and a channel that closes are not modelled.
- Outbox.Round: the store's answers during one round are a function of account and moment; runs (`Outbox.Next`) let them change between looks.
- `hear`'s windows of 30 and 150 milliseconds: a heard commit is gathered with any number of those after it.
- Threads' waiting and waking (condition variables, sleeps), panics and `survive`: a thread may be arbitrarily slow, and a reading that panics is a failed reading.
- What `invalidate` does besides marking: the fetcher, the clock's timer and the `moved` counters.
- `crates/mail-client/src/clock.rs`, when the clock is moved: a clock move is a step that may come at any time.
- A commit that changed no row, which is not said: it changes no answer.
- SQLite, full-text search and blobs: the store is its history of databases.
- What an act does, undo and previews (`crates/mail-client/src/act.rs`): an act is the commits it makes.
- The scheduler, host and folder fetching of `crates/mail-client/src/fetch.rs`.
- Parsing and formatting of envelope dates, and lossy decoding of senders that are not UTF-8.
- `header`, `sniff`, `folder_placement`, roles and labels in `crates/mail-archive/src/lib.rs`, and `status_flags`, `envelope_of` and `placement` in `mbox.rs`: easy branching.
- JSON, the hash itself, sockets' own life and what `notifications` drops of a post.
- `emlx.rs`, `takeout.rs`, `thunderbird.rs`, the command line, the window and the network: wrappers, or easy members only.
