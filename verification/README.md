# A mailbox for agents: model and proofs

Agents on one hub send each other messages. A message names its recipients, may answer another
message, and waits until each recipient reads it; conversations that have gone quiet expire.
This project models the engine that does this, its two stores, the house rules around it, and
the names and addresses it speaks, and proves what the engine promises about them.

Threads are not stored. They are recomputed from parent pointers, over a graph that a corrupt
store could make cyclic or leave dangling, so the walk to a root is proved right on every graph
(`FunctionalGraph`, `Threads`) and only then specialised to the graphs the engine can produce.

What each request answers and leaves is stated in `Promises`, of the stored actors, messages and
marks themselves, with `Audiences` for whom a name stands for and `Spelling` for what a name becomes.

The engine is modelled three times, at three grains, and the three are proved to agree:

* **Whole operations** (`Engine`): each request as a function of the store. `Runs`, `Delivery` and
  `NonInterference` prove properties of every sequence of whole operations, starting from any
  state that satisfies the invariant; the empty store does.
* **Classes** (`InMemoryStore`, `SqliteStore`, `Mailbox`, `House`): methods that update fields
  step by step, each proved to do what the functions say.
* **Operations cut at every store call** (`Processes`, `Interleaving`): any number of operations
  over one store, their calls interleaved by an arbitrary schedule. `Wholeness` proves that an
  operation nothing interrupts does exactly what `Engine` says.

Theorems in `Runs`, `Delivery`, `NonInterference` and `HiddenTurns` are about whole operations. Those in
`Interleaving`, `Claims`, `Composing`, `Grounding` and `Rooting` hold under any schedule: identity, one
winner per name, parents older than their replies, well-addressed messages, interchangeable stores,
read once, conservation of mail (under the names stored in it).

**What interleaving costs.** Four things that whole operations keep are lost when the two calls of
an expiry interleave with those of a reply or a read. `Overtaking` gives a schedule for each, over
every store with a visible message in an idle thread, and the exact condition is proved for each:

* *Every parent is stored.* A call keeps this unless it removes the parent of a message that stays or
  is about to be stored (`Grounding.StepGrounds`); an expiry does so exactly if a message it had not
  listed answers one it removes (`Grounding.ExpiryBeheadsTheUnlisted`).
* *Stored messages keep their roots.* A call keeps them unless it removes the stored parent of a
  stored message that stays (`Rooting.StepRoots`); over a whole schedule a message keeps its root
  exactly if everything its walk passed is still stored (`Rooting.RootsFollowTheirWalks`).
* *A reply to a visible message joins its thread.* It does exactly if the message is still stored
  when the store is listed and its author is party to it (`Stepping.ReplyKeepsItsParent`); otherwise
  it silently starts a thread of its own.
* *Every read mark is on a stored message.* A call keeps this unless it removes a message that
  another operation has fetched to mark (`Grounding.StepGroundsMarks`).

While no expiry is running, parents, roots and marks are all kept.

**The group-name condition.** A name is looked up among groups before actors, and profiles declare
their own groups, so a stored recipient whose name is also declared as a group may be resolved
differently later. `Delivery.ReachesItsNames` gives the exact condition under which resolving the
names stored in a message gives them back, `Delivery.GroupNameRedirects` a case where it does not.
Theorems about what one message reaches ask this of that message only, at the two ends of the run
(`Delivery.Steady`); those about a thread ask it of that thread's turns, and those about replies of
what is answered, when it is answered.

**Where code and documentation differ.** `normalize` is described as giving a canonical form, but
`a_!_b` gives `a__b`, which is not its own canonical form; the second application always is. The
comment in `rename` that a chain of renames stays one hop holds exactly when the new name has no
forward of its own. The code is followed in both cases.

Message ids and clock readings are inputs of a request; an id is required never to have been
issued before, as the unique identifiers of the code are. Times are the strings the code compares.

The records allow actors that are groups, and a group's own name is a membership key, but no
operation of the mailbox creates one. The request `ClaimGroup` stands for whatever puts such an
actor into the store through the port's claim, so that every theorem covers directories with groups.

## Model

| member | source | states |
|---|---|---|
| FunctionalGraph.OwnRoot | src/agent_mailbox/rules.py:139-148 | on any graph, exactly the nodes without a stored parent and the nodes on a cycle are their own root |
| FunctionalGraph.RootPassesOn | src/agent_mailbox/rules.py:139-148 | a node that is not its own root has the root of its parent |
| FunctionalGraph.RootIsIdempotent | src/agent_mailbox/rules.py:132-148 | the root of a root is itself, on cyclic and dangling graphs too |
| FunctionalGraph.AcyclicRootIsAnEnd | src/agent_mailbox/rules.py:135-147 | on an acyclic graph the walk ends at a node without a stored parent, so the bound on visited nodes never stops it |
| Rules.GroupMemberships | src/agent_mailbox/rules.py:28-41 | the nested loops compute, for every group name held or listed, the actors that list it |
| Rules.ResolveAudience | src/agent_mailbox/rules.py:44-64 | the loop computes the union of what each addressed name stands for |
| Rules.ResolveJoins | src/agent_mailbox/rules.py:55-64 | resolution distributes over joining two lists of names |
| Audiences.MembersAreThoseListing | src/agent_mailbox/rules.py:28-41 | an actor is a member of a group exactly if its stored profile lists it |
| Audiences.ResolvesToThoseMeant | src/agent_mailbox/rules.py:55-64 | `everyone` stands for every actor, a group name for the actors whose profiles list it, any other name for its actor |
| Audiences.PartiesAreThoseMeant | src/agent_mailbox/rules.py:67-107 | a message is delivered to exactly the actors, its author aside, that one of its names stands for; those and the author are its parties |
| Audiences.LocalNamesMean | src/agent_mailbox/mailbox.py:182-184 | each address is read in its place, and the first that cannot be read decides the error |
| Rules.ThreadRoot | src/agent_mailbox/rules.py:132-148 | the loop terminates on every list of messages and finds the root of the walk |
| Rules.ExpiredObjectIds | src/agent_mailbox/rules.py:224-246 | the two loops return exactly the ids of messages all of whose thread is older than the cutoff |
| Rules.LatestByRoot | src/agent_mailbox/rules.py:241-244 | after the first loop a root's entry is below a cutoff exactly when all its thread is |
| Threads.ThreadIsInhabited | src/agent_mailbox/rules.py:151-160 | a thread has turns exactly when its id is stored and is its own root |
| Threads.ThreadListing | src/agent_mailbox/rules.py:151-160 | the listing holds exactly the thread's messages, oldest first, and is non-empty exactly when the id is a stored root |
| Threads.ViewersSeeTheirTurns | src/agent_mailbox/rules.py:163-188 | a viewer gets exactly the turns of the thread it is party to, in order, and nothing otherwise |
| Threads.ThreadsPartition | src/agent_mailbox/rules.py:151-160 | every stored message is in the thread of a stored root, and different threads share none |
| Threads.ExpiredOfListing | src/agent_mailbox/rules.py:224-246 | on a store's listing the expiry rule names exactly the stored messages of idle threads |
| Threads.ExpiryTakesWholeThreads | src/agent_mailbox/rules.py:225-233 | expiry takes a thread whole or leaves it whole |
| Threads.ExpiryIsMonotone | src/agent_mailbox/rules.py:241-246 | a later cutoff expires at least as much |
| Threads.ExpiryIsIdempotent | src/agent_mailbox/rules.py:224-246 | expiring again at the same cutoff removes nothing, on every store including cyclic ones |
| Threads.SurvivorsShareRoots | src/agent_mailbox/rules.py:224-246 | after expiry a survivor has the root its old root has, on every store |
| Threads.ExpiryKeepsThreads | src/agent_mailbox/rules.py:224-246 | on an acyclic store without dangling parents expiry keeps both and moves no survivor to another root |
| Threads.AddingKeepsThreads | src/agent_mailbox/mailbox.py:189-231 | storing a message on a stored parent keeps the graph acyclic and whole, moves no root, and gives it its parent's root |
| Threads.ExpiryIsByInstant | src/agent_mailbox/mailbox.py:376-381 | where messages carry the strings of their instants, expiry is decided by the instants |
| Timestamps.StringOrderIsTimeOrder | src/agent_mailbox/mailbox.py:84-85 | for UTC instants with four-digit years the order of the written strings is the order of the instants, with or without a fraction |
| Timestamps.IsoIsInjective | src/agent_mailbox/mailbox.py:84-85 | different instants are written differently |
| Timestamps.IsoIsWritten | src/agent_mailbox/mailbox.py:84-85 | the string is year, month, day, hour, minute and second at their widths, a six-digit fraction unless it is zero, and the UTC offset |
| Engine.AttachRule | src/agent_mailbox/rules.py:191-218 | on a store's listing the attachment rule allows exactly a stored parent the sender is party to |
| Engine.ReplySubjectSettles | src/agent_mailbox/mailbox.py:384-387 | a reply's subject starts with `Re:`, is the original or the original with that in front, and is not prefixed twice |
| Runs.FirstFreeIsIssued | src/agent_mailbox/mailbox.py:122-131 | an issued name is the first free candidate, and joining fails exactly when none is free |
| Runs.GrantedIsFree | src/agent_mailbox/mailbox.py:105-120 | a granted name was free, is not the broadcast word, and reads back as itself |
| Runs.SendAccepts | src/agent_mailbox/mailbox.py:182-187 | a message is accepted exactly when author and addresses resolve here and every name is an actor, a group or the broadcast word |
| Runs.SentAsWritten | src/agent_mailbox/mailbox.py:189-231 | it is stored as written at the time of sending, on the parent asked for exactly if its author is party to it; every property received is kept, and what was typed is recorded as `audience` unless one was received |
| Runs.SendSplitsAudience | src/agent_mailbox/mailbox.py:197-220 | stored `to` and `cc` are sorted, disjoint, hold only actors and not the sender, and together are the resolution of all addressed names minus the sender |
| Runs.LeaveIsEffect | src/agent_mailbox/mailbox.py:97-381 | every request changes the store by at most one put, one added message, one mark or one removal |
| Runs.EffectsAreProper | src/agent_mailbox/mailbox.py:97-381 | puts keep type and creation time, added messages are new and answer only what their author is party to, marks are on stored messages, removals are expiries |
| Runs.StartHolds | src/agent_mailbox/store.py:99-102 | an empty store satisfies the invariant |
| Runs.StepKeepsInv | src/agent_mailbox/mailbox.py:97-381 | every request keeps: no dangling parent, acyclic, well-addressed messages whose senders read back, marks only on stored messages, no actor called `everyone` |
| Runs.StepKeepsRoots | src/agent_mailbox/mailbox.py:189-231 | no request changes a stored message or moves it to another root, or brings back an id that was removed |
| Runs.NothingIsDecapitated | src/agent_mailbox/mailbox.py:369-381 | over any run, a message stored at both ends is the same, under the same root, with its parent and its unparented root stored |
| Promises.JoinMeans | src/agent_mailbox/mailbox.py:97-120 | a join with a name succeeds exactly if its normal form is non-empty, unreserved, at most 64 characters and free; then a plain actor is stored under it, and otherwise nothing changes |
| Promises.IssuedJoinMeans | src/agent_mailbox/mailbox.py:122-131 | a join without one stores a plain actor under the first free candidate, or fails and changes nothing |
| Promises.InstallMeans | src/agent_mailbox/mailbox.py:321-344 | a resident who exists is untouched; one who does not is created with the profile given |
| Promises.UpdateProfileMeans | src/agent_mailbox/mailbox.py:141-154 | the profile given is stored and last-seen renewed; name, type, creation time and everybody else are unchanged; an unknown caller is refused |
| Promises.UpdateProfileRegroups | src/agent_mailbox/mailbox.py:141-154 | afterwards the caller is in exactly the groups listed, and others in those they were |
| Promises.LookupsMean | src/agent_mailbox/mailbox.py:133-139 | `whois` finds the stored actor and `directory` all of them |
| Promises.SendMeans | src/agent_mailbox/mailbox.py:165-231 | which refusal comes first; otherwise who is in `to` and who in `cc`, on which parent, saying what, when, with which document; and that only this message is added |
| Promises.BroadcastReachesAll | src/agent_mailbox/rules.py:58-59 | addressing `everyone` reaches every actor but the author |
| Promises.ReplyMeans | src/agent_mailbox/mailbox.py:257-272 | a reply to a message one may see says the body given, under the given, the original or the prefixed subject, to whomever the author's name stands for |
| Promises.ListingMeans | src/agent_mailbox/store.py:125-126 | a listing holds every message once, by time and then id |
| Promises.OldestFirstByInstant | src/agent_mailbox/mailbox.py:84-85 | where times are the strings of instants, no later entry was sent before an earlier one |
| Promises.PeekMeans | src/agent_mailbox/mailbox.py:276-282 | `peek` lists, oldest first, exactly what the caller receives and has not read |
| Promises.ReadThreadMeans | src/agent_mailbox/mailbox.py:299-310 | `thread` lists, oldest first, exactly the turns with that root that the caller wrote or receives |
| Promises.SeeingMeans | src/agent_mailbox/mailbox.py:284-297 | author and receivers get the message as stored, others the refusal for absent ones; a read marks it, the first time only |
| Promises.ExpireMeans | src/agent_mailbox/mailbox.py:369-381 | exactly the messages of threads all of whose turns are older than the cutoff go, with their marks, and are counted |
| Delivery.ReachesItsNames | src/agent_mailbox/rules.py:55-81 | a stored message reaches exactly its stored names if and only if groups among them have no outside member and lose none of the names |
| Delivery.GroupNameRedirects | src/agent_mailbox/rules.py:35-63 | an actor that lists another's name as a group receives the mail stored for that name |
| Delivery.SnapshotNotQuery | src/agent_mailbox/mailbox.py:197-210 | whatever happens over a run, a stored message is unchanged and reaches the same names at both ends exactly if its names resolve to themselves at the end too |
| Delivery.PeekListsWaiting | src/agent_mailbox/mailbox.py:276-282 | `peek` lists exactly the delivered and unread messages, oldest first |
| Delivery.MailIsConserved | src/agent_mailbox/mailbox.py:276-297 | a message waits for an actor after a step exactly if the step delivered it, or it waited and was neither read by that actor nor expired |
| Delivery.MailIsNeverLost | src/agent_mailbox/mailbox.py:276-297 | over any run waiting mail goes on waiting exactly until its reader's own read or its thread's expiry |
| Delivery.ReplyAnswersItsSender | src/agent_mailbox/mailbox.py:257-272 | a reply to a visible message is accepted, joins its thread, and goes to whomever the original sender's name stands for |
| Delivery.EveryReplyIsFromAParty | src/agent_mailbox/mailbox.py:189-195 | in every state reached the author of a reply wrote or received its parent |
| Delivery.StrangersCannotIntrude | src/agent_mailbox/rules.py:191-218 | however much everybody posts, an actor party to no turn of a thread, whom nobody else names in one, stays party to none and authors none |
| NonInterference.StepCannotTell | src/agent_mailbox/mailbox.py:165-297 | two mailboxes alike in an actor's own mail answer its peek, view, read, send and reply alike, and stay alike |
| NonInterference.OthersMailIsInvisible | src/agent_mailbox/mailbox.py:165-365 | the same over any sequence of the actor's requests |
| NonInterference.OthersDoingsAreInvisible | src/agent_mailbox/mailbox.py:165-365 | the same over two runs in which others send, read and mark differently, so long as the actor is party to none of it |
| NonInterference.AbsentAndForbiddenAreOne | src/agent_mailbox/mailbox.py:346-355 | a message that is not one's own is refused as if absent, and naming it as parent is naming none |
| HiddenTurns.ListingsAgree | src/agent_mailbox/mailbox.py:299-310 | two mailboxes alike for the viewer list a thread alike exactly if each message of its own is in that thread in both or in neither |
| HiddenTurns.AllListingsAgree | src/agent_mailbox/mailbox.py:299-310 | they list every thread alike exactly if its own messages have the same roots in both |
| HiddenTurns.ThreadsCanTell | src/agent_mailbox/mailbox.py:299-310 | two mailboxes alike for the viewer that list one of its turns under different roots |
| HiddenTurns.ThreadsCanTellApart | src/agent_mailbox/mailbox.py:299-310 | such a pair exists among the mailboxes the engine can leave |
| HiddenTurns.ExpiriesAgree | src/agent_mailbox/mailbox.py:369-381 | two mailboxes alike for the viewer are alike after an expiry exactly if it takes the same of the viewer's own mail |
| HiddenTurns.ExpiryCanTellApart | src/agent_mailbox/mailbox.py:369-381 | in two mailboxes the engine can leave, alike for the viewer, a message of its own expires in one and not in the other |
| InMemory.InMemoryStore.constructor | src/agent_mailbox/store.py:99-102 | a new store is empty |
| InMemory.InMemoryStore.ClaimName | src/agent_mailbox/store.py:104-108 | inserts only if the name is free, and says whether it did |
| InMemory.InMemoryStore.GetActor | src/agent_mailbox/store.py:110-111 | the actor filed under the name, if any |
| InMemory.InMemoryStore.PutActor | src/agent_mailbox/store.py:113-114 | overwrites the actor, its creation time included |
| InMemory.InMemoryStore.Actors | src/agent_mailbox/store.py:116-117 | every actor once, in order of joining |
| InMemory.InMemoryStore.AddObject | src/agent_mailbox/store.py:119-120 | files the message under its id |
| InMemory.InMemoryStore.GetObject | src/agent_mailbox/store.py:122-123 | the message filed under the id, if any |
| InMemory.InMemoryStore.Objects | src/agent_mailbox/store.py:125-126 | every message, by time and id |
| InMemory.InMemoryStore.RemoveObjects | src/agent_mailbox/store.py:128-134 | removes the messages and their marks and counts the messages that were there |
| InMemory.InMemoryStore.MarkRead | src/agent_mailbox/store.py:136-141 | records the first mark of a reader and reports a second |
| InMemory.InMemoryStore.ReadsOf | src/agent_mailbox/store.py:143-149 | the marks of each given message |
| SqliteTables.SqliteStore.constructor | src/agent_mailbox/sqlite_store.py:44-77 | new tables are empty |
| SqliteTables.SqliteStore.ClaimName | src/agent_mailbox/sqlite_store.py:178-196 | insert-or-ignore on the name does what the dictionary's claim does |
| SqliteTables.SqliteStore.GetActor | src/agent_mailbox/sqlite_store.py:198-201 | the row with the name, if any |
| SqliteTables.SqliteStore.PutActor | src/agent_mailbox/sqlite_store.py:203-218 | the upsert overwrites everything but name and creation time |
| StorePort.RemovalMeans | src/agent_mailbox/store.py:128-134 | a removal takes exactly the given messages that are stored, with the marks on the given ids, and counts the messages |
| StorePort.ReadsOfMean | src/agent_mailbox/store.py:143-149 | for each message given, who read it and when |
| StorePort.OverwriteMeans | src/agent_mailbox/sqlite_store.py:203-218 | the dictionary's overwrite takes the new creation time, the table's keeps the one it has |
| SqliteTables.SqliteStore.Actors | src/agent_mailbox/sqlite_store.py:220-222 | every actor once, by name |
| SqliteTables.SqliteStore.AddObject | src/agent_mailbox/sqlite_store.py:226-244 | insert-or-replace files the message under its id |
| SqliteTables.SqliteStore.GetObject | src/agent_mailbox/sqlite_store.py:246-251 | the row with the id, if any |
| SqliteTables.SqliteStore.Objects | src/agent_mailbox/sqlite_store.py:253-257 | every message, by time and id |
| SqliteTables.SqliteStore.RemoveObjects | src/agent_mailbox/sqlite_store.py:259-271 | the two deletes remove and count what the dictionary store does |
| SqliteTables.SqliteStore.MarkRead | src/agent_mailbox/sqlite_store.py:275-282 | insert-or-ignore on message and reader records the first mark only |
| SqliteTables.SqliteStore.ReadsOf | src/agent_mailbox/sqlite_store.py:284-299 | the marks of each given message |
| Mailboxes.Mailbox.FetchContext | src/agent_mailbox/mailbox.py:87-94 | the actors' names and the memberships of the store's actors |
| Mailboxes.Mailbox.FetchActor | src/agent_mailbox/mailbox.py:156-161 | the actor an address refers to, or the error |
| Mailboxes.Mailbox.Join | src/agent_mailbox/mailbox.py:97-120 | grants a validated free name and stores the actor, or changes nothing |
| Mailboxes.Mailbox.JoinIssued | src/agent_mailbox/mailbox.py:122-131 | the loop issues the first free candidate |
| Mailboxes.Mailbox.InstallResident | src/agent_mailbox/mailbox.py:321-344 | creates the resident or returns the existing actor untouched |
| Mailboxes.Mailbox.UpdateProfile | src/agent_mailbox/mailbox.py:141-154 | replaces the profile and keeps name, type and creation time |
| Mailboxes.Mailbox.Send | src/agent_mailbox/mailbox.py:165-232 | the steps of `send` store exactly the composed message, or refuse and store nothing |
| Mailboxes.Mailbox.Reply | src/agent_mailbox/mailbox.py:257-272 | replies to a visible message by sending to its author on its thread |
| Mailboxes.Mailbox.Peek | src/agent_mailbox/mailbox.py:276-282 | lists what is waiting, reading marks through the store |
| Mailboxes.Mailbox.Read | src/agent_mailbox/mailbox.py:288-297 | marks a visible message read for this reader only |
| Mailboxes.Mailbox.Thread | src/agent_mailbox/mailbox.py:299-310 | the visible turns of the thread |
| Mailboxes.Mailbox.VisibleObject | src/agent_mailbox/mailbox.py:346-355 | a message the caller is party to, or one refusal for absent and forbidden |
| Mailboxes.Mailbox.Expire | src/agent_mailbox/mailbox.py:369-381 | removes exactly the idle threads and their marks and counts the messages |
| Processes.ResumeProgresses | src/agent_mailbox/mailbox.py:97-381 | whatever the store answers, an operation has fewer calls left after each |
| Wholeness.SendWhole | src/agent_mailbox/mailbox.py:165-232 | `send`, cut at its store calls and run alone, is the whole `send` |
| Wholeness.WholeIsAtomic | src/agent_mailbox/mailbox.py:97-381 | every operation, cut at its store calls and run alone over either store, leaves and answers what it does whole |
| Interleaving.StartsHold | src/agent_mailbox/store.py:99-102 | an empty store and operations at their start satisfy the interleaved invariant |
| Interleaving.StepKeepsInv | src/agent_mailbox/mailbox.py:97-381 | any single store call of any operation keeps it, and keeps every actor's identity |
| Interleaving.IdentityIsPermanent | src/agent_mailbox/mailbox.py:141-154 | under any schedule an actor's name, type and creation time never change |
| Interleaving.ReachableGraphsAreAcyclic | src/agent_mailbox/rules.py:135-148 | under any schedule the parent graph is acyclic and walks end at messages without a stored parent |
| Interleaving.EveryScheduleIsAcyclic | src/agent_mailbox/mailbox.py:189-231 | from an empty store every schedule keeps each parent issued before its reply |
| Interleaving.StoresAreInterchangeable | src/agent_mailbox/sqlite_store.py:178-299 | any schedule over one store gives the same states and answers over the other, although one overwrite keeps the creation time and the other takes it |
| Claims.OneClaimWins | src/agent_mailbox/store.py:104-108 | under any schedule a finished join of a requested name is either the one recorded winner or was refused |
| Claims.IssuedNamesAreWon | src/agent_mailbox/mailbox.py:122-131 | under any schedule a finished join without a name is the recorded winner of its name and was beaten to every earlier candidate, or was beaten to all |
| Claims.NoTwoJoinsShareAName | src/agent_mailbox/mailbox.py:97-131 | from an empty store no two finished joins, with or without a requested name, answer with one name |
| Grounding.StepGrounds | src/agent_mailbox/mailbox.py:189-231 | a store call keeps every parent stored exactly if it is not a removal that takes the parent of a message that remains or is about to be stored |
| Grounding.GroundedUnlessBeheaded | src/agent_mailbox/mailbox.py:369-381 | along any schedule no parent goes missing exactly if no removal takes one |
| Grounding.ExpiryBeheadsTheUnlisted | src/agent_mailbox/mailbox.py:376-381 | an expiry takes the parent of a message that remains exactly if a message stored or made since its listing answers one of those it removes |
| Grounding.ExpiryIsSafeUnlessOvertaken | src/agent_mailbox/mailbox.py:376-381 | so its removal leaves every parent stored exactly if there is no such message |
| Grounding.WithoutExpiryNothingDangles | src/agent_mailbox/mailbox.py:189-231 | while no expiry is running, under any schedule no parent goes missing, no message is lost or changed, and none moves to another root |
| Grounding.BeginsGrounded | src/agent_mailbox/mailbox.py:97-381 | operations at their start, none an expiry, on a store without dangling parents, satisfy what that needs |
| Grounding.StepGroundsMarks | src/agent_mailbox/mailbox.py:288-297 | a store call keeps every read mark on a stored message exactly if it is not a removal of one another operation has fetched to mark |
| Grounding.WithoutExpiryNoMarkIsOrphaned | src/agent_mailbox/mailbox.py:288-297 | while no expiry is running, under any schedule no read mark is left without its message |
| Grounding.CallsKeepFirstMarks | src/agent_mailbox/store.py:136-141 | a store call keeps every mark's time unless it removes the message, and makes a first mark with the time it carries |
| Grounding.FirstMarkStays | src/agent_mailbox/mailbox.py:288-297 | under any schedule, however many reads run, a reader's first mark stays as it was until the message is removed |
| Grounding.CallsConserveMail | src/agent_mailbox/mailbox.py:276-297 | call by call, whoever else is running, an unread message is addressed to an actor exactly if the call stored it so, or it was and the call is neither that actor's mark nor a removal of it |
| Grounding.MailWaitsUntilTaken | src/agent_mailbox/mailbox.py:276-297 | under any schedule waiting mail waits exactly until its reader's own mark or its removal |
| Rooting.StepRoots | src/agent_mailbox/rules.py:132-148 | a store call keeps the root of every stored message exactly if it is not a removal of the stored parent of one that stays |
| Rooting.RootsKeptUnlessUprooted | src/agent_mailbox/mailbox.py:369-381 | along any schedule every call keeps every root exactly if no removal is such a one |
| Rooting.ExpiryUprootsTheUnlisted | src/agent_mailbox/mailbox.py:376-381 | an expiry is such a removal exactly if a message stored since its listing answers one it removes |
| Rooting.RootsFollowTheirWalks | src/agent_mailbox/rules.py:132-148 | whatever interleaves, a message stored at both ends of a schedule is unchanged, and keeps its root exactly if everything its walk passed is stored at the end |
| Composing.StepKeepsWellMade | src/agent_mailbox/mailbox.py:197-231 | any store call of any operation keeps every message, stored or made, well addressed and signed with an actor's name that reads back |
| Composing.EveryScheduleComposesWell | src/agent_mailbox/mailbox.py:197-231 | so under any schedule stored `to` and `cc` are sorted, disjoint, and name only actors other than the sender |
| Stepping.ReplyKeepsItsParent | src/agent_mailbox/mailbox.py:189-195 | a reply keeps the parent it names exactly if that is stored at the listing and its author is party to it under the directory fetched before |
| Overtaking.EveryStoreHasARace | src/agent_mailbox/mailbox.py:257-272 | over every store whole operations leave, with a visible message in an idle thread, a reply and an expiry at their start can race |
| Overtaking.RacesHappen | src/agent_mailbox/mailbox.py:257-272 | two actors and one message between them are enough for such a race |
| Overtaking.ExpiryCanOvertakeAReply | src/agent_mailbox/mailbox.py:189-231 | in every such race the expiry can run between the reply's look at its parent and its storing, which leaves it without one |
| Overtaking.ReplyCanOvertakeAnExpiry | src/agent_mailbox/mailbox.py:376-381 | and the reply can run between the expiry's listing and its removal, which leaves it without a parent and under another root |
| Overtaking.ReplyCanLoseItsThread | src/agent_mailbox/mailbox.py:189-195 | and the expiry can run between the reply's two looks at its parent, which makes it silently start a thread of its own |
| Overtaking.EveryStoreHasAReadRace | src/agent_mailbox/mailbox.py:288-297 | over every store whole operations leave, a read and an expiry at their start can run together |
| Overtaking.MarkCanOutliveItsMessage | src/agent_mailbox/mailbox.py:288-297 | a read and an expiry at their start can leave a read mark without its message |
| Naming.NormalizeIsCanonical | src/agent_mailbox/naming.py:75-79 | the result is lower-case letters, digits and underscores with no underscore at either end, whatever the Unicode folding does |
| Naming.NormalizeSettles | src/agent_mailbox/naming.py:75-79 | a second application always gives a fixed point without doubled underscores |
| Naming.NormalizeIsIdempotentUnlessFusing | src/agent_mailbox/naming.py:75-79 | one application gives a fixed point exactly when dropping characters brings no two inner underscores together |
| Fusing.NormalizeIsIdempotentExactlyIf | src/agent_mailbox/naming.py:75-79 | for an ASCII text, exactly when it has no dropped character between two separators or underscores that have a letter or digit on each side and none between |
| Naming.NothingDroppedNothingFused | src/agent_mailbox/naming.py:79 | where no character is dropped, none are |
| Naming.NormalizeIsNotIdempotent | src/agent_mailbox/naming.py:75-79 | `a_!_b` gives `a__b` and that gives `a_b` |
| Naming.CaseIsIgnored | src/agent_mailbox/naming.py:75-77 | ASCII spellings that differ in capitals normalise alike |
| Naming.SeparatorsAreOneUnderscore | src/agent_mailbox/naming.py:77-78 | any run of spaces, hyphens, dots and apostrophes between two words becomes one underscore |
| Spelling.NormalizeIsOnePass | src/agent_mailbox/naming.py:75-79 | for an ASCII text the normal form is one pass over it: each run of white space, hyphens, dots, apostrophes and underscores one underscore, letters and digits small, nothing else, no underscore at the ends |
| Naming.ValidateGrants | src/agent_mailbox/naming.py:82-103 | granted exactly the non-empty, unreserved normal forms of at most 64 characters |
| Addressing.ParseGrammar | src/agent_mailbox/addressing.py:59-74 | exactly which texts parse, and to which name and hub |
| Addressing.PrintRoundTrips | src/agent_mailbox/addressing.py:41-74 | printing a parsed address and parsing it again changes nothing |
| Addressing.LocalNameSettles | src/agent_mailbox/addressing.py:77-90 | the name an address refers to refers to itself |
| Addressing.ThreeSpellings | src/agent_mailbox/addressing.py:54-90 | the bare, `@local` and `@hub` spellings are one actor, and other hubs are refused |
| Addressing.GrantedNamesAreHalves | src/agent_mailbox/addressing.py:59-74 | every granted name is in the form that parsing leaves |
| Addressing.GrantedNamesAreReachable | src/agent_mailbox/addressing.py:54-90 | so every granted name is reached by its bare, `@local` and `@hub` spellings, and refused at any other hub |
| Policies.ResidentsSettle | src/agent_mailbox/policy.py:165-170 | afterwards every resident exists, nobody who existed was disturbed, and nobody else was added |
| Policies.StandingResidentsStand | src/agent_mailbox/policy.py:143-170 | `admin` and `host` exist afterwards, with the given profiles if they are new, and nobody else is touched |
| Policies.LimitsDecide | src/agent_mailbox/policy.py:193-210 | limits refuse exactly the sends that are too long or too wide |
| Policies.Utf8LengthCounts | src/agent_mailbox/policy.py:196 | the length is one a character and one more from each of U+0080, U+0800 and U+10000 on |
| Policies.ProbeDetector.Record | src/agent_mailbox/policy.py:261-273 | counts each actor's refused reaches and warns from the threshold on |
| Policies.ProbeDetector.RefusalsFor | src/agent_mailbox/policy.py:275-276 | the number of that actor's probes among all that was observed |
| Houses.House.Check | src/agent_mailbox/house.py:74-76 | the first refusing policy's refusal |
| Houses.House.Record | src/agent_mailbox/house.py:78-92 | every policy is told once, in order, and exactly those that raise are noted |
| Houses.House.Open | src/agent_mailbox/house.py:55-59 | installs the residents of every policy in turn |
| Houses.House.Send | src/agent_mailbox/house.py:96-130 | a refused send changes nothing and tells no one; a permitted one is the mailbox's send and tells every policy once |
| Houses.House.Read | src/agent_mailbox/house.py:132-144 | the same for `read`, with failures told as reaching for what is not the caller's |
| Houses.House.Join | src/agent_mailbox/house.py:146-155 | the same for `join`, with a name or without |
| Houses.House.Reply | src/agent_mailbox/house.py:157-169 | a permitted reply is the mailbox's own reply |
| Houses.ReopeningChangesNothing | src/agent_mailbox/house.py:55-59 | opening again changes nothing, whatever became of profiles and mail meanwhile |
| Houses.LimitsHold | src/agent_mailbox/policy.py:193-210 | whatever a house with limits permits is within them |
| Houses.LimitsRefuse | src/agent_mailbox/policy.py:193-210 | where nothing else refuses, a send is refused exactly if it exceeds a limit |
| Houses.FirstRefusalMeans | src/agent_mailbox/house.py:74-76 | the error is that of the first policy that refuses |
| Houses.AttemptsShow | src/agent_mailbox/house.py:106-113 | what the policies are shown of a send, a read and a join |
| Houses.EventsTell | src/agent_mailbox/house.py:114-155 | observers are told the attempt, and the error of a failure or the new id or name of a success |
| Houses.FailingMeans | src/agent_mailbox/house.py:85-92 | exactly the policies that raise are noted, each once and in order |
| Houses.StandingAfterOpening | src/agent_mailbox/house.py:55-59 | a house with the standing residents has `admin` and `host` once open |
| Houses.ProbesAreRefusals | src/agent_mailbox/policy.py:261-273 | a read is counted against its caller exactly if it was refused, a send exactly if refused for a message that is not there |
| Forwarding.Directory.ResolvesTo | agent-mailbox-old/src/agent_mailbox_old/mailbox.py:862-878 | decides reachability in one or more hops on every table, cyclic or not |
| Forwarding.Directory.ResolveForward | agent-mailbox-old/src/agent_mailbox_old/mailbox.py:880-896 | one hop of the table, and whether that forward has expired |
| Forwarding.Directory.Rename | agent-mailbox-old/src/agent_mailbox_old/mailbox.py:755-860 | when a rename is refused, what it rewrites otherwise, and that the table stays acyclic |
| Forwarding.MailFollows | agent-mailbox-old/src/agent_mailbox_old/mailbox.py:848-857 | afterwards everything that came to the old name ends where the new one ended, and everything else where it did |
| Forwarding.RunsStayAcyclic | agent-mailbox-old/src/agent_mailbox_old/mailbox.py:789-793 | over any run of attempted renames the table stays acyclic |
| Forwarding.RenameStaysOneHop | agent-mailbox-old/src/agent_mailbox_old/mailbox.py:853-857 | chains stay at one hop exactly when the new name has no forward of its own |
| Forwarding.RenameCanMakeTwoHops | agent-mailbox-old/src/agent_mailbox_old/mailbox.py:853-857 | a rename to a name that itself forwards makes a chain of two |

## Left out

- HTTP routing, wire rendering, startup, configuration, logging and error prose: only which error is raised is modelled.
- SQL text, JSON encoding and connection handling: a table is the set of its rows under its primary key.
- The directory's order: both stores' listings are modelled, but requests answer with the set of actors.
- Unicode: folding of names is an arbitrary function, assumed to lower-case ASCII where a theorem says so.
- Random name generation: the candidates are an input, of any number.
- The mailbox class is written over the in-memory store; the SQLite store is covered by its own class and by the interchangeability theorem.
- Policies: a check decides from the attempt alone and an observer does not write to the mailbox; which observers raise on an event is arbitrary.
- The house's `view` notice and its plain pass-throughs: they add no decision.
- The superseded mailbox beyond its directory and forwarding table, its address syntax included.
- Forwarding.Directory.Rename: does not rewrite stored messages, their senders and read marks, which are not part of this model.
- InMemory.InMemoryStore.ReadsOf: gives the marks of a message as a set, because no caller depends on their order.
- SqliteTables.SqliteStore.ReadsOf: the same.
- Addressing.ParseGrammar: lowers ASCII letters only, where the code lowers every letter.
- Naming.NormalizeIsIdempotentUnlessFusing: for texts outside ASCII its condition speaks of the text after folding, since folding is arbitrary there.
