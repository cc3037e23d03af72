# hybrid(core), modelled and proved

hybrid(core) is an IRC bot descended from Eggdrop. This project models the parts of it that are
algorithms rather than plumbing, and proves what they are relied on for. Everything is Dafny 4.11;
`dafny verify dfyconfig.toml` checks the whole.

Code that changes things in place is modelled by methods that change things in place: the bot list is a
chain of heap nodes that `unvia` takes nodes out of while it walks over it, and escaped text is taken apart
inside its own buffer. The party line and the table of connections, which close gaps with their last
entry, are sequences held in fields and replaced as a whole at each change. Each such method is proved
against a specification, and what matters is proved about the specification.

## What is in it

- **The botnet** (`Bot*.dfy`, `PartyLine.dfy`, `Preorder.dfy`, `Wire.dfy`). Every bot keeps a list of all
  bots, each with the bot it is linked to and the neighbour it is reached through. `BotTree` says what a
  well laid out list is: names distinct up to case and never our own, every uplink in front of its bots,
  the first hop passed down from the neighbour. `BotState` is the protocol as a state machine over
  connections, version lines, announcements, departures, joins, parts, losses and sweeps; `BotRuns`
  proves its invariant for every run, `BotLines` tells what each line does from its text, and `BotBacked`
  which runs keep a list entry for every live link.
  `BotReplay` proves that a list of links, sent as text and read line by line by a new neighbour, builds
  the same tree under the sender, and `BotDelivery` follows it through the output queue and the line
  reader, whatever the pieces; `BotRefusal` tells what becomes of it when a name is known. `BotNodes`,
  `BotList`, `BotLoss`, `BotHandlers` and `BotService` work on heap nodes, up to a whole run of the bot
  (`BotService.Serve`). `BotWalk` is the walk that draws the tree with a stack of 20.
- **Masks** (`Glob`, `Match`, `Covering`, `Address`, `AddressLaws`, `Cidr4`, `Overlap`, `OverlapLaws`,
  `MaskAddr`, `MaskMeaning`, `Bits`). A one-page meaning of masks; the right-to-left matcher with one place to fall
  back to; CIDR blocks in both builds; masks that cover or overlap other masks; masks built from addresses.
- **Streams** (`Lines`, `LineBytes`, `Net`). Lines put together from reads of any size, and the output queue.
- **Text that is taken apart again** (`DhBase64`, `DhCodec`, `Flags`, `FlagLaws`, `Escape`, `Dumplots`,
  `Spelling`).
- **Timers** (`Timers`, `TimerOrder`). Lists emptied and filled again at each tick, while commands add and
  remove timers.

## What came out that the code does not say

- Comparing masks by matching one against the text of the other is right exactly for masks without `?`,
  and for masks of stars and a single `?` (`Covering.CoverExact`).
- IPv6 prefixes of 1 to 3 bits never match: the score is divided by four (`Address.CidrMatch`).
- Whether two masks overlap depends on their order exactly when one host is an address and the other the
  same address with a prefix that is longer than it (`OverlapLaws.OverlapTurned`).
- Masks said to overlap need not: of two hosts of which one is a block, something is matched by both exactly
  when neither is a block that matches nothing or a text with a slash (`OverlapLaws.OverlapSoundExactly`).
- Comparing texts finds every mask that a mask has a text in common with exactly when the mask has no
  wildcards, or nothing but stars and up to two `?`; `a*` and `*b` go unnoticed (`OverlapLaws.TellsExactly`).
- Lines survive any chunking exactly when none is longer than 510 bytes; one byte at a time is the reading
  that fails for longer ones (`Lines.ExactIffShort`).
- A stored line of more than 510 bytes is cut when it is handed out, and the rest of it is lost. No byte but
  line ends is ever lost otherwise (`LineBytes.NothingLost`), and four reads get there (`LineBytes.ByteLost`).
- A key written in the DH1080 base 64 comes back whole exactly when the sextet with its last bits is not
  zero (`DhBase64.RoundTrip`); how many bytes come back is told by the zeros at the end of its text
  (`DhBase64.BytesBack`).
- `rembot` without `unvia` keeps the invariant exactly when nobody is behind the bot and nobody on the party
  line is on it (`BotRuns.RemBotKeeps`).
- A dump with a name that the neighbour knows ends as if the link had been lost at once, whatever was taken
  over before (`BotRefusal.DumpExactly`).
- When a timer's command removes timers, it reaches those in front of it in the list, and neither itself nor
  those behind it (`Timers.TickIs`).
- A flag record of bot and channel flags joined by `&` is read back as joined by `|`, unless the record read
  into was marked as joined by `&` before (`Flags.RoundTrip`).
- An `unlinked` message in which a linked bot names itself drops its list entry but not its connection. It
  is the one event that leaves a live link unlisted (`BotBacked.StepBacked`), over a whole run every live
  link is listed exactly when no bot sends it (`BotBacked.RunBacked`), and three events get there
  (`BotBacked.StrandedLink`). The invariant therefore asks for a connection per direct neighbour, not the
  other way round.
- The comment in `maskaddr` says that types below 2 keep the host; the test is on the number of dots
  (src/misc.c:403), and that is what is modelled.

## Model

| member | source | states |
|---|---|---|
| WildMatch.WildMatch | src/match.c:155-221 | the greedy scan with one fallback ends and returns exactly 1 + the number of letters of the mask when the glob relation holds, else 0, for every mask and text |
| Covering.CoverSound | src/match.c:155-221 | if m has no `?`, matches the text of n, and n matches s, then m matches s |
| Covering.CoverExact | src/match.c:155-221 | judging masks by their text is right for all masks and texts exactly when m has no `?`, or only stars and a single `?` |
| Address.CidrMatch | src/match.c:337-361 | scores two texts by their first count bits: positive exactly when both parse in one family and agree bit by bit, except that IPv6 prefixes of 1 to 3 bits score 0 |
| Address.AddrMatch | src/match.c:232-284 | the score of comparing two hostmasks: as wholes, or user and host apart, with blocks inside blocks when both are masks |
| AddressLaws.TextVerdict | src/match.c:255-275 | with a host that is no block, there is a match exactly when users match and hosts do or are both empty, and it scores one and the letters of each part |
| AddressLaws.BlockVerdict | src/match.c:277-284 | with a block, there is a match exactly when users match and the host agrees in the bits of the prefix, less those lost, and it scores by the prefix |
| AddressLaws.BlocksVerdict | src/match.c:277-284 | with two blocks compared as masks, the first one must be no longer and agree in its bits |
| AddressLaws.WholeVerdict | src/match.c:258-259 | without CIDR or an '@' in both, the texts match as wholes |
| Address.AddrCovers | src/match.c:232-284 | if m covers n as a mask and n matches the address a, then m matches a, for trusted user parts and a host of m that is a block, or two hosts that are none |
| Address.TextOverBlock | src/match.c:232-284 | a text that covers a block as a mask need not match an address in it |
| Cidr4.CidrMatch4 | src/match.c:363-377 | the build without IPv6 scores by the first count bits of two 32-bit numbers |
| Cidr4.BuildsAgree | src/match.c:337-378 | on IPv4 addresses other than all ones the two builds give the same score |
| Overlap.MaskMatch | src/match.c:289-331 | the verdict on two masks: either matches the other's text, or their blocks agree in the bits of the shorter prefix |
| OverlapLaws.TextsOverlap | src/match.c:311-318 | hosts that are no blocks overlap exactly when one user matches the other and one host does, or both hosts are empty |
| OverlapLaws.WholesOverlap | src/match.c:307-308 | without CIDR or an '@' in both, exactly when one text matches the other |
| OverlapLaws.BlockAndAddress | src/match.c:320-330 | a block and a host without a prefix overlap exactly when users do and the host is in the block, less the prefixes lost |
| OverlapLaws.AddressAndBlock | src/match.c:320-330 | the same in the other order, where too long a prefix counts as the whole address |
| OverlapLaws.SlashesOverlap | src/match.c:320-330 | two hosts with slashes, of which one is a block, are compared in the bits of the smaller number |
| OverlapLaws.NumberIs | src/match.c:322-328 | what atoi makes of a sign, digits and what follows |
| OverlapLaws.MatchedOverlaps | src/match.c:232-331 | a mask is said to overlap every address without a slash that it matches |
| OverlapLaws.HostsTurnedExactly | src/match.c:311-330 | the verdict on two hosts is the same in either order, unless one is an address and the other the same address with a prefix longer than it, and then it is not |
| OverlapLaws.OverlapTurned | src/match.c:289-331 | the same of masks, for all of them: order matters exactly when they are compared in parts, their users match and their hosts are such a pair |
| OverlapLaws.LongPrefix | src/match.c:319-330 | an address, and the same address with too long a prefix, overlap in one order and not in the other |
| OverlapLaws.OverlapSound | src/match.c:289-331 | masks said to overlap do, a user and a host exist that both match, when the hosts are two texts, or neither is a block that matches nothing or a text with a slash |
| OverlapLaws.OverlapSoundExactly | src/match.c:289-331 | of masks said to overlap, such a user and host exist exactly when the hosts are both no blocks, or both match something and have no slash that is no prefix |
| OverlapLaws.NothingInCommon | src/match.c:319-330 | an address and the same address with too long a prefix are said to overlap, and nothing matches both |
| OverlapLaws.BlocksOverlapExactly | src/match.c:319-330 | two blocks of one family are said to overlap exactly when they have an address in common, unless the shorter prefix is one of 1 to 3 bits of IPv6 or longer than the address |
| OverlapLaws.NoBlocksNoOverlap | src/match.c:319-330 | a block and a host of another family, or of what is no address, are never said to overlap |
| OverlapLaws.TellsExactly | src/match.c:302-313 | a common text always shows in one mask matching the other exactly for masks without wildcards, and of stars with up to two `?` |
| MaskAddr.Build | src/misc.c:318-417 | builds the mask of MaskOf for every text and every mask type |
| MaskAddr.MaskMatches | src/misc.c:318-417 | for every mask type, the mask matches the text it was built from exactly when that has a `!` with an `@` somewhere behind it |
| MaskMeaning.HostMaskMeaning | src/misc.c:340-417 | which hosts the host part stands for, for every host: front, end, digits, runs of digits or the host itself, by mask type and kind of host |
| MaskMeaning.UserMaskMeaning | src/misc.c:318-340 | which users the user part stands for, for every user and for none |
| MaskMeaning.NickMaskMeaning | src/misc.c:333-340 | which nicks the nick part stands for: everyone unless the type ends in 5 to 9 |
| MaskMeaning.MaskStandsFor | src/misc.c:316-417 | the mask matches an address exactly when nick, user and host are each among those its parts stand for |
| MaskMeaning.SplitFull | src/misc.c:321-330 | a full address is cut at its first '!' and at the first '@' behind that |
| MaskMeaning.ThreeLabels | src/misc.c:396-410 | of a name of three labels the first is masked |
| MaskMeaning.FourLabels | src/misc.c:396-410 | of one of four labels the first two, or the first alone before a last label of two letters |
| MaskMeaning.MoreLabels | src/misc.c:396-410 | of longer names the first two |
| MaskMeaning.PlainMeaning | src/misc.c:318-417 | for hosts and users without wildcards these are equal texts, fronts and ends in either case, up to digits |
| Wire.Base64RoundTrip | src/botcmd.c:65-75 | every int survives printing as an unsigned base 64 number and reading back |
| Wire.DigitsAre | src/botcmd.c:48-62 | the digits, in order |
| Spelling.DecimalBack | src/match.c:277-284 | a number read from its own text is that number |
| Spelling.Conversion | src/botmsg.c:139-193 | what each conversion of a format stands for |
| Wire.IntToBase64 | src/botmsg.c:76-92 | fills its 12 bytes from the end, in bounds, with the digits of the number |
| Wire.Base64ToInt | src/botcmd.c:65-75 | reads digits with the wrap-around of a C int |
| Wire.Split | src/misc.c:271-289 | the first word, and what follows it and one blank |
| Wire.Sprintf | src/botmsg.c:139-193 | the rendered text cut at 1023 characters |
| Wire.LinkLineRendered | src/botnet.c:745-760 | the format of link lines renders to name, uplink, letter and version |
| BotTree.ViaStartsPath | src/botnet.c:376-416 | every path of uplinks from us to a bot starts with the neighbour that its via names |
| BotTree.PathTo | src/botnet.c:86-109 | every listed bot is reached by such a path, no longer than the list |
| BotTree.BelowIsOnPath | src/botnet.c:376-399 | a bot is behind another one exactly when that one stands on its path before it |
| BotTree.CutKeepsTree | src/botnet.c:297-399 | a bot and all behind it can go, leaving a tree in the same order |
| BotTree.BelowMore | src/botnet.c:376-399 | removing one child with its branch, midway, removes only bots behind who and nothing that leaves others dangling |
| BotState.NextBotIsFirstHop | src/botnet.c:403-416 | nextbot answers exactly for listed bots, with a live connection to the neighbour from which every path to that bot starts |
| BotRuns.CutOffIs | src/dcc.c:475-482 | unvia then rembot removes exactly the bot, all behind it and the members on them, in place |
| BotRuns.AnnouncedBot | src/botcmd.c:653-730 | an accepted announcement hangs the new bot behind the named one, with that bot's via, as a tree asks |
| BotRuns.StepKeeps | src/botcmd.c:653-769 | every event keeps the invariant: tree, live connections of neighbours, members filed under their keys on listed bots |
| BotRuns.RunKeeps | src/dcc.c:193-257 | the invariant holds after every run |
| BotRuns.SweepKeeps | src/dccutil.c:461-473 | sweeping leaves every live entry as often as it was there and no lost one |
| BotRuns.SweepStays | src/dccutil.c:461-473 | an entry that is not lost moves only to fill a gap |
| BotLines.PartLine | src/botcmd.c:1299-1345 | a part line takes the member of that bot and socket off the party line, and nobody else |
| BotLines.JoinLine | src/botcmd.c:1220-1294 | a join line files that member as written, when its bot is reached over the sender, and nothing else |
| BotLines.JoinThenPart | src/botcmd.c:1220-1345 | a join followed by its part gives the party line back |
| BotLines.UpdateLine | src/botcmd.c:632-649 | an update leaves its letter on the bot named, and its version unless that is 0, and changes nothing else |
| BotLines.ThisBotLine | src/botcmd.c:933-956 | the own name in any case respells the connection, another one costs the link |
| BotLines.LinkedLine | src/botcmd.c:653-730 | an announcement appends the bot; from a leaf, about a known, misnamed or misplaced bot it costs the link |
| BotLines.UnlinkedLine | src/botcmd.c:751-769 | an unlinked takes off the bot named with all behind it when it is behind the sender, and else changes nothing |
| BotLines.VersionIs | src/dcc.c:193-257 | a version line lists the bot and makes the link, unless the version is old, handles are of another length or the name is known |
| BotLines.LossIs | src/dccutil.c:423-438 | a loss marks the entry, and takes the branch of a linked bot and the members on it |
| BotLines.OtherLine | src/botcmd.c:1514-1625 | other lines change nothing here |
| BotRuns.RemBotKeeps | src/botnet.c:297-332 | rembot alone keeps the invariant exactly when nobody is behind the bot and nobody on the party line is on it |
| BotBacked.UnlinkedBacked | src/botcmd.c:751-769 | an `unlinked` keeps every live link listed exactly when it names another bot than its sender |
| BotBacked.StepBacked | src/botcmd.c:653-769 | of all events, only an `unlinked` in which a linked bot names itself leaves a live link without its list entry, or two links of one name |
| BotBacked.RunBacked | src/dcc.c:193-257 | over every run, each live link has its list entry at all times exactly when no linked bot ever names itself in an `unlinked` |
| BotBacked.StrandedLink | src/botcmd.c:751-769 | a link, a version and `un` with the sender's own name: the link is up and the list is empty |
| BotReplay.LinkLineFits | src/botnet.c:745-760 | a link line is at most 76 bytes, is not cut, and holds no line end but its own |
| BotReplay.DumpReplayed | src/botnet.c:738-760 | the dump, read line by line by a neighbour that knows none of the names, is accepted throughout and builds the same tree under the sender |
| BotRefusal.DumpExactly | src/botcmd.c:653-730 | the dump is taken over whole exactly when the neighbour knows none of its names; with one that it knows, the dump ends as the plain loss of the link does |
| BotReplay.RunSendable | src/botcmd.c:653-730 | whatever a bot learns in any run it can pass on as text |
| BotReplay.RunsReplayed | src/dcc.c:193-257 | two bots after any two runs: the second takes over the whole tree of the first from its dump |
| BotDelivery.DumpDelivered | src/botnet.c:738-760 | a dump written in whatever pieces the socket takes and read in whatever pieces come: at every moment the neighbour has taken over the first so many bots, and in the end all |
| BotDelivery.RunsDelivered | src/dcc.c:193-257 | two bots after any two runs, with the dump sent and read in any pieces: the whole tree arrives |
| PartyLine.Party.GetParty | src/botnet.c:230-240 | finds the member of a bot and socket, exactly when there is one |
| PartyLine.Party.Add | src/botnet.c:146-199 | changes or adds the one member of that key and keeps keys unique |
| PartyLine.Party.Rem | src/botnet.c:334-357 | swap-with-last removal drops that key and no other, though the loop goes on over the moved entry |
| PartyLine.Party.RemBot | src/botnet.c:361-372 | rewinding the index, removes exactly the members on that bot |
| BotList.Botnet.FindBot | src/botnet.c:74-82 | the first node of that name in any case, or none |
| BotList.Botnet.RemBot | src/botnet.c:297-332 | unlinks and frees that node alone, leaving the chain in order |
| BotList.Botnet.Unvia | src/botnet.c:376-399 | the recursive walk never stands on a freed node and removes exactly all behind who, in place, and the members on them and on who |
| BotList.Botnet.CutOff | src/botcmd.c:751-769 | unvia and rembot on the nodes do what the state machine says |
| BotList.Botnet.NextBot | src/botnet.c:403-416 | finds the first live connection named like the bot's via |
| BotList.Botnet.AddBot | src/botnet.c:86-109 | appends a node whose uplink and via are the nodes meant, keeping the tree |
| BotList.Botnet.UpdateBot | src/botnet.c:111-123 | changes letter and version of that one bot |
| BotList.Botnet.InChain | src/botnet.c:833-840 | whether a name is listed or ours |
| BotCounts.BranchesAll | src/botnet.c:842-855 | the branches of the bots linked to who are, together, all behind who |
| BotCounts.WholeCounts | src/botnet.c:842-872 | the recursive counts of bots and users add up without counting anything twice |
| BotCounts.BotsLost | src/botnet.c:842-855 | as many bots go from the list as are counted |
| BotCounts.UsersLost | src/botnet.c:857-872 | as many members go from the party line as are counted |
| BotLoss.BotsInSubtree | src/botnet.c:842-855 | the number of bots that go with a bot |
| BotLoss.UsersInSubtree | src/botnet.c:857-872 | the number of members on the bots that go with a bot |
| BotLoss.LostDcc | src/dccutil.c:423-438 | a lost link takes all behind it along, and its entry is left to be swept |
| BotLoss.EofBot | src/dcc.c:559-574 | tands and parties shrink by exactly what was reported just before |
| BotLoss.DccRemoveLost | src/dccutil.c:446-473 | closes gaps with the last entry until none is lost |
| BotHandlers.LinkDump | src/botnet.c:738-760 | prints the line of every listed bot, in order |
| BotHandlers.BotVersion | src/dcc.c:193-257 | completes a link for a bot not on the net, and drops others |
| BotHandlers.BotNlinked | src/botcmd.c:653-730 | refuses loops, bogus names and directions and leaves, and lists the rest |
| BotHandlers.BotUnlinked | src/botcmd.c:751-769 | cuts off a bot only when it is behind the sender |
| BotHandlers.BotUpdate | src/botcmd.c:632-649 | updates a listed bot |
| BotHandlers.BotThisBot | src/botcmd.c:933-956 | takes over the spelling of a name, or drops an impostor with all behind it |
| BotHandlers.BotJoin | src/botcmd.c:1220-1295 | files a member of a bot behind the sender, and of no other |
| BotHandlers.BotPart | src/botcmd.c:1299-1341 | drops the member of that key |
| BotService.DccBot | src/dcc.c:530-557 | dispatches a line by its first word |
| BotService.InvReady | src/botcmd.c:653-730 | the invariant provides what every handler relies on |
| BotService.Handle | src/dcc.c:530-574 | one event on the lists in place is one step of the state machine |
| BotService.Serve | src/dcc.c:193-257 | a whole run on the lists in place ends in the state that the events lead to |
| Preorder.OrderIsAll | src/botnet.c:584-734 | the order of the walk holds every bot exactly once |
| Preorder.OrderSum | src/botnet.c:584-734 | the depths along the order add up to the sum of all depths |
| BotWalk.TellBottree | src/botnet.c:584-734 | ends, never meets a tree error, gives up exactly when a bot is 20 or more hops away, and else shows all bots in preorder with the sum of all hops |
| Lines.ShortIsExact | src/net.c:1029-1201 | for lines of at most 510 bytes, whatever the reads, the lines handed out and kept are those of the stream |
| Lines.ExactIffShort | src/net.c:1029-1201 | that holds for all reads of 1 to 511 bytes exactly when no line is longer |
| LineBytes.OneCall | src/net.c:1040-1190 | a call hands out a line exactly when what is searched holds a line end or 510 bytes, and a blank one exactly when it begins with a line end |
| LineBytes.LineOf | src/net.c:1040-1190 | the line goes on to the first line end, and to no more than 510 bytes |
| LineBytes.LineByLine | src/net.c:1040-1190 | lines read one by one are handed out as they are, the blank ones too |
| LineBytes.NothingLost | src/net.c:1040-1190 | whatever the stream and the reads, the bytes handed out and kept are those of the stream less line ends, in order, exactly while no call finds a stored line of more than 510 bytes |
| LineBytes.ByteLost | src/net.c:1046-1052 | four reads after which a byte is lost |
| Net.Socket.Gets | src/net.c:1029-1201 | one call hands out a stored line, or reads and cuts at 510 and 512 bytes |
| Net.SentInOrder | src/net.c:1207-1392 | over every run, wire and queue together are all that was sent, in order, and nothing waits behind an empty queue |
| Net.WrittenAtOnce | src/net.c:1243-1278 | what is sent goes to the socket at once if nothing waits, as far as the write takes it |
| Net.WrittenWhenReady | src/net.c:1331-1392 | what waits goes when the socket is ready, as far as the write takes it; a socket fails only by a failed write that is not to be repeated |
| Net.Socket.Puts | src/net.c:1243-1278 | writes or queues, keeping what was not taken |
| Net.Socket.Dequeue | src/net.c:1331-1392 | drops from the queue what was taken, and marks a dead socket |
| DhBase64.EncodedLength | dh1080_tcl/base64.c:88-118 | the length of the text |
| DhBase64.LettersAre | dh1080_tcl/base64.c:8-28 | the alphabet, in order |
| DhBase64.DecodedLength | dh1080_tcl/base64.c:30-81 | three quarters of the sextets, rounded down |
| DhBase64.RoundTrip | dh1080_tcl/base64.c:30-118 | what is read back is a beginning of what was written, and all of it exactly when the sextet with the last bits is not zero |
| DhBase64.BytesBack | dh1080_tcl/base64.c:30-118 | what comes back is the whole bytes in the sextets up to the last one that is not zero, for every input |
| DhCodec.InitB64 | dh1080_tcl/base64.c:17-24 | the table inverts the alphabet and is 0 elsewhere |
| DhCodec.BitsGrouped | dh1080_tcl/base64.c:88-118 | bits taken one by one give the grouping of section 4 of RFC 4648 without padding, and a stray zero when bytes come in threes |
| DhCodec.Htob64 | dh1080_tcl/base64.c:88-118 | the bit loop writes that text, and none for the empty input |
| DhCodec.B64toh | dh1080_tcl/base64.c:30-81 | drops zeros from the end and puts whole bytes together |
| DhCodec.WriteRead | dh1080_tcl/base64.c:30-118 | a key written and read again |
| Timers.TickIs | src/chanprog.c:596-627 | a tick ages every timer on the list, whatever its commands add, except those that the command of a timer behind them removes, and leaves added ones untouched |
| Timers.DueIs | src/chanprog.c:596-627 | when a timer goes off, and what is left of it |
| TimerOrder.TickOrder | src/chanprog.c:596-627 | the order after a tick, for every list and script: the later its turn the further in front, and behind it what its command added |
| TimerOrder.NewestFirst | src/chanprog.c:553-573 | what commands add stands newest first |
| TimerOrder.QuietTurn | src/chanprog.c:596-627 | without commands that add or remove timers a tick turns the list round |
| Timers.RunKeeps | src/chanprog.c:553-573 | ids stay distinct and are never given out twice |
| Timers.FiresOnTime | src/chanprog.c:596-627 | a timer for every e ticks fires at e, 2e, 3e and so on, c times or for ever, and at no other tick, until a removal of it takes effect |
| Timers.GoneInTheEnd | src/chanprog.c:596-627 | it is on the list exactly until it has fired for the last time or a removal of it takes effect |
| Timers.TimerList.AddTimer | src/chanprog.c:553-573 | puts a timer with a fresh id in front |
| Timers.TimerList.RemoveTimer | src/chanprog.c:577-592 | drops the timer of that id and says whether there was one |
| Timers.TimerList.CheckTimers | src/chanprog.c:596-627 | does one tick and fires the due timers in order |
| Escape.FieldsBack | src/misc.c:1586-1655 | any fields come back from the text they are joined to, for any two different ASCII characters |
| Escape.OnlySpecials | src/misc.c:1586-1617 | only dividers and masks are escaped, each with two characters more |
| Escape.DecodeIs | src/misc.c:1635-1655 | two hex digits in either case are a number |
| Escape.StrEscape | src/misc.c:1586-1617 | the growing buffer is never overrun and holds the escaped text |
| Escape.StrchrUnescape | src/misc.c:1635-1655 | the field is written over the text, never past what was read; the rest is left alone |
| Dumplots.PiecesAre | src/misc.c:421-459 | lines fit, hold no line end, give the text back, and break a word only where they are full |
| Dumplots.PiecesGreedy | src/misc.c:421-459 | lines are as long as they can be: divided at early line ends, else at the last blank that fits, else full |
| Dumplots.Dumplots | src/misc.c:421-459 | prints these lines, and ends; with a prefix longer than a line only line ends divide the text |
| Flags.RoundTrip | src/flags.c:366-551 | reading the text of a record gives its printed parts less the bits that are not valid, for all masks, and its joiner for flags of all channels and of one; a joiner that was in the record read into stays |
| Flags.SameRecord | src/flags.c:366-551 | the masks of a record come back unchanged exactly when all their bits are valid and of its kind, and what it is about exactly when its joiner is in the text or is the usual one |
| FlagLaws.SignedText | src/flags.c:385-448 | each character of a part sets its flag on the side of the last sign before it: letters, capitals and digits for users, letters up to u and digits for bots |
| FlagLaws.NextPart | src/flags.c:393-409 | a separator begins the next part on the plus side; only the first one tells how parts are joined |
| FlagLaws.FlagsSpelt | src/flags.c:466-486 | a character for each bit, in ascending order, letters before capitals |
| FlagLaws.BotsSpelt | src/flags.c:488-508 | the same for bots, letters before digits |
| Flags.Flag2str | src/flags.c:466-486 | letters and capitals of the bits, or a dash |
| Flags.Bot2str | src/flags.c:488-508 | letters and digits of the bits, or a dash |
| Flags.BuildFlags | src/flags.c:510-551 | the text of a record |
| Flags.BreakDownFlags | src/flags.c:366-464 | the record of a text |

## Left out

- Sockets, `select`, TLS, DNS, files, logging, Tcl, OpenSSL: their results are parameters (what a read
  brings, how much a write takes, what a command does to the timers) or they are not there.
- `inet_pton` and `inet_addr` are parameters: a text has bytes of the right number or none, an IPv6
  address has a colon, and the empty text is no address.
- Null pointers, allocation failure and other locales: case folding is that of the C locale.
- `_wild_match_per`, `cron_matchfld`, `add_lang` and `str_replace`: their code does not keep the obvious
  specification.
- The ghost clean-up and `*` paths of `botunlink` (src/botnet.c:939-976), which call `rembot` without
  `unvia`; see `BotRuns.RemBotKeeps` for what that costs. A request to unlink a bot that is listed and no
  neighbour (src/botcmd.c:590) gets there too.
- Rejecting a bot, and unlinking a neighbour on request: both end in the loss of a link, which is an event
  here.
- Forms of messages for old botnets: links below 1029900 are refused since handles are 32 long.
- Away and idle times, nick changes and statuses of the party line, and the lines of a dump about it.
- The socket number made up for a join or part that carries none is a parameter; the search for an old
  one depends on the order of the party table, which is not modelled.
- BotList.Botnet.AddBot: does not model a name that is listed already, since every caller rules it out
  first; the source then appends a second entry and logs it. Uplink and via are looked up before the
  node is made, as they are fixed from then on.
- PartyLine.Party.Add: does not model bot names longer than a handle, which no caller passes.
- Wire.Base64ToInt: does not model characters from 128 on, for which the source reads in front of its table
  with a signed index; they count as 0 here.
- BotWalk.TellBottree: does not model the bars and colours that are drawn, only which bots are shown.
- Net.Socket.Gets: does not model binary, buffered, connecting and listening sockets, and holds the
  buffers as texts that are replaced.
- Net.Socket.Dequeue: does not model the loop over all sockets, each of which stands for itself.
- Timers.TimerList.CheckTimers: does not model the reuse of list nodes, since the list is a sequence; ids
  do not wrap around.
- Timers.TimerList.AddTimer: does not model an id that is kept; every caller asks for a new one.
- Dumplots.Dumplots: does not model a prefix of exactly 500 characters in front of a text, with which the
  source need not come to an end.
- DhCodec.B64toh: does not model a text of nothing but zeros, on which the source reads in front of its
  buffer, and characters from 128 on, for which it reads in front of its table with a signed index.
- Escape.StrchrUnescape: does not model an escape character within two characters of the end, on which
  the source reads behind its buffer.
- Flags.BreakDownFlags: does not model two separators in a text about global flags alone, on which the
  source reads behind a constant.
- Masks of flags are the sets of their bits; hex constants are those of src/flags.h:57-59.
- Address.AddrMatch: does not model the overflow of `atoi` on absurdly long prefix lengths.
