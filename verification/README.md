# Pulsate, modelled and proved

Pulsate is a reverse proxy: a Flow configuration is lexed and parsed, requests are routed to sites and
routes, rate-limited, audited, cached and forwarded to upstream targets, and the nodes of a cluster
gossip about who is alive. This project models the parts of it whose correctness is a property of many
steps or many functions together, and proves those properties for every input and every run.

Code that updates things in place is a class or a method with loops here, proved equal to functions on
values; what the program promises is proved about those functions and about runs built from them.

## The main results

- **Gossip** (`GossipWire`, `GCounter`, `GossipNode`, `GossipCluster`, `GossipRuntime`): the cluster is a
  transition system whose steps are the timer events, the two halves of handling a datagram (fold it in,
  answer it) and increments of the counter. The network is a set of datagrams that only grows, so loss,
  duplication and reordering are all included. Over every run:
  nobody knows more about a node than the node itself (`GossipOwnership`); views are consistent, leaders
  do not clash and tombstones are final (`GossipView`); every death traces back to a full suspicion
  timeout (`GossipProvenance`); a completed probe was answered by its target (`GossipProbe`); one
  ping and ack make two nodes agree (`GossipExchange`). What does get done, told in the fields of the
  nodes: silent peers are suspected and die, answers lift suspicion, helpers pass acks on, the newest
  record is kept (`GossipProgress`), and every live peer has its turn (`GossipTurns`).
- **Flow**: lexing gives the only tokens that account for every byte (`FlowSpans`); the parser accepts exactly
  what a grammar given as a relation derives (`FlowDerivation`), and complains of the first token that no
  document can have there (`FlowErrors`); any well-formed tree written
  out as text lexes and parses back to itself (`FlowRender`, `FlowRoundTrip`, `FlowText`); the nodes of
  every parsed tree span exactly their own tokens and nest (`FlowNodeSpans`); and any accepted text can be
  rewritten in canonical form without changing its tree (`FlowAccepted`). `FlowScanner` and
  `FlowParser` are the lexer and the parser as the code has them.
- **Cache**: a hit is the latest accepted response for an interchangeable request, within its lifetime, and
  a lookup hits exactly when the history of the run says so (`CacheReuse`), all in terms of what the header
  text says position by position (`CacheHeaders`, `CachePolicy`); the byte accounting is exact
  along every run, and eviction takes oldest first and no more than it must (`CacheStore`).
- **Edit distance**: the two-row loop computes the length of the shortest edit script (`EditDistance`).
- **Routing**: exactly when the order of a site's routes decides a request, and exactly when the order in
  which Gateway API rules are emitted agrees with the route picked (`Routing`, `Translation`); a translated
  site answers exactly the requests its rules ask for (`TranslationMeaning`).
- **Audit log**: the last hash binds the whole log, up to an explicit hash collision (`AuditLog`).
- **Request identifiers**: distinct for 2^64 calls whatever the clock does, and sorted as their values
  (`RequestIds`).
- **Rate limit**: the exact most that a window-long span can hold, for every limit and window, and denials
  only after the limit (`RateLimit`).
- **Upstreams**: which target each policy picks, round-robin fairness, and the exact condition for a target to be out (`Balancer`).

## Where the code decides

- The router's documentation puts regex routes above the catch-all prefix. The code scores a regex route 10
  and a prefix 1,000 and more unless its score wraps, so on a site where none does a regex route answers
  exactly the requests that no exact and no prefix route matches (`RegexPickedIff`); the catch-all shadows it in
  either order (`CatchAllShadowsRegex`). A regex beats a prefix only at ten prefix lengths just below 4 GiB
  (`RegexWinsIff`). `SitePrecedence` states the order the code does follow: exact, longest prefix, regex.
- It also lets the first of equally specific routes win, and a route with a method over one without. The
  code takes the last listed (`PicksTheLastTop`), so the first wins exactly when it is the only one
  (`FirstWinsIff`), and a route with a method exactly when no equally specific one without follows
  (`RefinedWinsIff`); `OrderDecidesForRivals` is an input where both promises fail.
- The router's documentation says that the result never depends on declaration order. Which route a
  request gets does depend on it exactly when two different routes match at the highest score: for prefixes
  of everyday length, two routes of one kind and text whose methods overlap, such as a prefix for POST and
  the same prefix for every method (`OrderDecidesIff`, `OrderDecidesForRivals`). The one listed last wins.
- The kind and prefix of the route picked depend on the order at a few prefix lengths only, the first of
  them 999,000 bytes, where a prefix ties with an exact path (`TiesExactly`, `OrderDecidesAtTheTie`). Beyond
  it the prefix wins in any order, until its score wraps near 4 GiB (`ExactWinsIff`), although exact lines
  are emitted first.
- For the same reason a request may reach another upstream than that of the first matching emitted line:
  the router takes the last line of that kind and prefix (`SameLineIff`, `UpstreamsDiffer`).
- A wildcard host such as `*.example.com` does not ask for the dot: it also matches a longer name that only
  ends in `example.com` (`WildcardIff`, `WildcardIgnoresTheDot`).
- The rate limiter's bound is one below twice the limit, since the check that opens a bucket is at least
  a window older than the next bucket; for a window of one tick it is the limit itself. `MostIsReached`
  gives a run that meets it for every limit and window.
- Between entries stored at the same instant eviction picks any first, so it need not remove the fewest.
  Every order of eviction is least exactly when no entry of the boundary instant, the one from which on
  entries stop fitting, fits beside everything newer (`EveryEvictionIsLeastIff`). There is no limit to what
  ties may cost: any number of entries may go where one would do (`TiesMayCostMany`).

## Reading the model

- Clock readings are parameters of the operations; one event reads the clock once. Only the rate limiter's
  theorems ask for readings in order. Random choices (shuffles) are arbitrary.
- Gossip incarnations, counters and body lengths are unbounded; sequence numbers, the round-robin
  counter, the in-flight counts, audit numbers and identifier counters wrap as the code's integers do.
- Gossip sequence numbers being unique is an assumption of `ProbeSound` and `ExchangeSettles` only.
- Flow text is read byte by byte, so a character here is one byte. Values keep the raw text of atoms:
  typing them into numbers and durations is a parameter where it shows (`Lexemes`).
- A cache layer owns its store, as `crates/pulsate-config/src/router.rs` builds it, and header names are
  lower case with one value each.
- The keyed hash of the audit log is any function with 32-byte results.

## Model

| member | source | states |
|---|---|---|
| GossipOwnership.OwnershipHolds | crates/pulsate-cluster/src/gossip/mod.rs:545-613 | in every reachable state no peer table and no datagram, pending or in flight, carries an incarnation or counter slot of a node above that node's own |
| GossipOwnership.StepKeepsOwned | crates/pulsate-cluster/src/gossip/mod.rs:545-613 | every step of the cluster keeps that bound |
| GossipOwnership.RefutationStep | crates/pulsate-cluster/src/gossip/mod.rs:555-564 | a node's incarnation changes only when a frame accuses it at its current incarnation, and then by exactly one |
| GossipOwnership.CounterNeverOvercounts | crates/pulsate-cluster/src/gossip/mod.rs:664-674 | a node's counter value lies between its own increments and the increments really made across the cluster |
| GossipProbe.AttributionHolds | crates/pulsate-cluster/src/gossip/mod.rs:382-414 | with unique sequence numbers, every probe, relay and ack in any state belongs to the node and target its number was drawn for |
| GossipProbe.ProbeSound | crates/pulsate-cluster/src/gossip/mod.rs:484-540 | a probe of a target completes only if the target itself sent an ack with its number after the probe began, direct or through a relay |
| GossipProvenance.SuspectSince | crates/pulsate-cluster/src/gossip/mod.rs:459-468 | a suspicion held now was taken up at some step and held without a break, its deadline a suspicion timeout after that step |
| GossipProvenance.DeathProvenance | crates/pulsate-cluster/src/gossip/mod.rs:322-344 | every dead record in a table or datagram traces back to a node that held the member suspect at that incarnation, unbroken, for its suspicion timeout |
| GossipProvenance.OwnSuspicionIsSlow | crates/pulsate-cluster/src/gossip/mod.rs:347-378 | a suspicion a node raises itself comes at least two probe timeouts after its probe began |
| GossipProvenance.OwnTimersAreSlow | crates/pulsate-cluster/src/gossip/mod.rs:322-378 | on local timers alone an alive peer is not dead sooner than two probe timeouts plus the suspicion timeout after its probe began |
| GossipView.ViewHolds | crates/pulsate-cluster/src/gossip/mod.rs:568-611 | in every reachable state the membership is the node itself plus its non-dead peers, and a deadline is armed exactly for suspects |
| GossipView.AtMostOneLeader | crates/pulsate-cluster/src/lib.rs:95-103 | two nodes that each hold the other non-dead never both lead |
| GossipView.Leader | crates/pulsate-cluster/src/lib.rs:95-97 | the leader is the least identifier of the view, and there is none only for an empty view |
| GossipView.IsLeader | crates/pulsate-cluster/src/lib.rs:101-103 | the node is told it leads exactly when it is the least identifier of its view |
| GossipView.EntriesOnlyGrow | crates/pulsate-cluster/src/gossip/mod.rs:587-609 | along every run a record stays and its pair of incarnation and is-dead only grows, although suspect may fall back to alive |
| GossipView.TombstoneIsFinal | crates/pulsate-cluster/src/gossip/mod.rs:472-481 | a stopped node recorded dead at its last incarnation stays dead and out of that view forever |
| GossipExchange.ThirdAgrees | crates/pulsate-cluster/src/gossip/mod.rs:545-613 | folding in each other's snapshots, there and back, two nodes agree on incarnation and state of every third node |
| GossipExchange.CountersAgree | crates/pulsate-cluster/src/gossip/mod.rs:545-552 | and their counters are equal |
| GossipExchange.AnswererIsAlive | crates/pulsate-cluster/src/gossip/mod.rs:555-613 | and the first holds the second alive at its current incarnation, even if it held it suspect or dead |
| GossipExchange.ExchangeConverges | crates/pulsate-cluster/src/gossip/mod.rs:484-505 | the three together for a ping and its ack delivered undisturbed anywhere in any run |
| GossipExchange.ExchangeSettles | crates/pulsate-cluster/src/gossip/mod.rs:523-540 | acting on the ack changes nothing of what the exchange achieved |
| GossipProgress.UnansweredIsSuspected | crates/pulsate-cluster/src/gossip/mod.rs:373-376 | in every run, a probe past its deadline in the indirect phase ends: its target, if alive at any incarnation, is suspect at that incarnation until a suspicion timeout from now, every other record and the view stay, and a round goes out |
| GossipProgress.SilentPeerDies | crates/pulsate-cluster/src/gossip/mod.rs:322-376 | and if nothing lifts the suspicion before a reap at or after that deadline, the target is then dead at that incarnation and out of the view |
| GossipProgress.SuspicionKeepsDeadline | crates/pulsate-cluster/src/gossip/mod.rs:459-468 | an unbroken suspicion keeps its deadline |
| GossipProgress.DueSuspectsDie | crates/pulsate-cluster/src/gossip/mod.rs:322-344 | a reap turns exactly the suspects whose deadline has come to dead and takes exactly them out of the view, and a round goes out exactly if there were any |
| GossipProgress.LateProbeAsksHelpers | crates/pulsate-cluster/src/gossip/mod.rs:356-372 | a direct probe past its deadline asks the configured number of helpers, alive and at other addresses, or all if there are fewer, to ping the target under the same number, and waits another probe timeout |
| GossipProgress.AnsweredIsAlive | crates/pulsate-cluster/src/gossip/mod.rs:472-481 | an ack with the number of the probe out ends it and makes its target, unless dead, alive without a deadline; no other record changes, and other acks change none |
| GossipProgress.PingIsAnswered | crates/pulsate-cluster/src/gossip/mod.rs:498-502 | a ping is answered to its sender under its number |
| GossipProgress.RequestIsRelayed | crates/pulsate-cluster/src/gossip/mod.rs:503-514 | a ping request is passed on under its number, and the asker remembered for two probe timeouts |
| GossipProgress.AckIsRelayed | crates/pulsate-cluster/src/gossip/mod.rs:523-540 | an ack takes the relay of its number with it, and goes back to the asker exactly if it comes from the pinged address |
| GossipProgress.HelperPassesAckOn | crates/pulsate-cluster/src/gossip/mod.rs:498-540 | in every run, a helper that handles a ping request pings the target under its number, and passes the target's ack on to the asker if no other step used or dropped the relay |
| GossipProgress.DueRelaysGo | crates/pulsate-cluster/src/gossip/mod.rs:285 | exactly the relays past their expiry are dropped |
| GossipProgress.RoundReaches | crates/pulsate-cluster/src/gossip/mod.rs:418-439 | a round pings every seed and a fanout of different peers that are not dead, or all if there are fewer, and no seed twice |
| GossipProgress.NewestIsKept | crates/pulsate-cluster/src/gossip/mod.rs:545-613 | in every run, folding a frame in leaves of every other node the newest record among the one held and those listed, keeps the larger of every counter slot, moves the own incarnation on by one exactly if the frame accuses the node there, and exactly then a round goes out |
| GossipProgress.OtherVersionsAreIgnored | crates/pulsate-cluster/src/gossip/mod.rs:484-490 | a frame of another protocol version changes nothing |
| GossipTurns.ProbesInTurn | crates/pulsate-cluster/src/gossip/mod.rs:382-414 | in every run, a new probe pings the live peer with as many live peers before it in identifier order as probes have gone out, modulo their number; none goes out exactly if one is out already or nobody is live |
| GossipTurns.EveryLivePeerIsProbed | crates/pulsate-cluster/src/gossip/mod.rs:382-414 | while the live peers stay the same, as many probes as there are of them reach every one |
| GCounter.MergeIsJoin | crates/pulsate-cluster/src/lib.rs:133-138 | merging is commutative, associative and absorbs what was merged already |
| GCounter.MergeBounds | crates/pulsate-cluster/src/lib.rs:128-138 | a merge holds at least the value of either counter and never more than that of any counter above both |
| GCounter.IncrCounts | crates/pulsate-cluster/src/lib.rs:118-130 | an empty counter has value zero, and an increment adds exactly its amount to the value |
| GCounter.MergeInto | crates/pulsate-cluster/src/lib.rs:133-138 | the merge loop computes the slot-wise maximum |
| GCounter.Sum | crates/pulsate-cluster/src/lib.rs:128-130 | the value loop adds up every slot once |
| GossipNode.PickLeast | crates/pulsate-cluster/src/lib.rs:95-97 | scanning a set of identifiers finds its least one |
| GossipRuntime.Shuffle | crates/pulsate-cluster/src/gossip/mod.rs:210-217 | a shuffle is an arbitrary order of exactly the given identifiers |
| GossipRuntime.SortIds | crates/pulsate-cluster/src/gossip/mod.rs:382-414 | the sorted order lists every identifier once, ascending |
| GossipRuntime.Runtime.constructor | crates/pulsate-cluster/src/gossip/mod.rs:111-120 | a node starts alone, at incarnation zero, with no probe and no relays |
| GossipRuntime.Runtime.Incr | crates/pulsate-cluster/src/gossip/mod.rs:664-668 | adds to the node's own slot only |
| GossipRuntime.Runtime.Leave | crates/pulsate-cluster/src/lib.rs:67-71 | takes a member out of the view unless it is the node itself |
| GossipRuntime.Runtime.ApplyUpdate | crates/pulsate-cluster/src/gossip/mod.rs:555-613 | the in-place update equals the transition the run theorems are about, and reports exactly the refutations |
| GossipRuntime.Runtime.Reconcile | crates/pulsate-cluster/src/gossip/mod.rs:545-552 | folds every update in order, merges the counter, and reports whether any update was refuted |
| GossipRuntime.Runtime.MarkSuspect | crates/pulsate-cluster/src/gossip/mod.rs:459-468 | an alive peer becomes suspect with a deadline a suspicion timeout ahead, nothing else changes |
| GossipRuntime.Runtime.MarkAlive | crates/pulsate-cluster/src/gossip/mod.rs:472-481 | a suspect becomes alive without a deadline; a dead peer stays dead |
| GossipRuntime.Runtime.ReapTable | crates/pulsate-cluster/src/gossip/mod.rs:322-344 | exactly the suspects past their deadline become dead and leave the view |
| GossipRuntime.Runtime.EvictAll | crates/pulsate-cluster/src/gossip/mod.rs:322-344 | exactly the newly dead leave the membership |
| GossipRuntime.Runtime.Snapshot | crates/pulsate-cluster/src/gossip/mod.rs:124-149 | a frame lists the node itself alive at its incarnation, then every peer once, with the counter |
| GossipRuntime.Runtime.Send | crates/pulsate-cluster/src/gossip/mod.rs:260-268 | one snapshot goes out to the given address |
| GossipRuntime.Runtime.RoundDestinations | crates/pulsate-cluster/src/gossip/mod.rs:418-439 | a round goes to the first of the shuffled live peers up to the fanout, then to seeds not yet listed |
| GossipRuntime.Runtime.GossipRound | crates/pulsate-cluster/src/gossip/mod.rs:418-439 | a round pings its destinations with consecutive sequence numbers and changes nothing else |
| GossipRuntime.Runtime.PingAll | crates/pulsate-cluster/src/gossip/mod.rs:418-439 | every destination gets one ping, numbered in order |
| GossipRuntime.Runtime.ReapSuspects | crates/pulsate-cluster/src/gossip/mod.rs:322-344 | reaping, followed by a round only if someone died, is one reap step of the cluster |
| GossipRuntime.Runtime.AdvanceProbe | crates/pulsate-cluster/src/gossip/mod.rs:347-378 | a probe past its deadline goes indirect or ends in suspicion, as one cluster step |
| GossipRuntime.Runtime.AskHelpers | crates/pulsate-cluster/src/gossip/mod.rs:347-378 | helpers other than the target are asked, up to the configured number |
| GossipRuntime.Runtime.StartProbe | crates/pulsate-cluster/src/gossip/mod.rs:382-414 | the next live peer in sorted round-robin order is probed unless a probe is out, as one cluster step |
| GossipRuntime.Runtime.RetainRelays | crates/pulsate-cluster/src/gossip/mod.rs:271-300 | exactly the relays past their expiry are dropped |
| GossipRuntime.Runtime.Absorb | crates/pulsate-cluster/src/gossip/mod.rs:484-497 | reconciling a frame and gossiping a refutation is one absorb step of the cluster |
| GossipRuntime.Runtime.Dispatch | crates/pulsate-cluster/src/gossip/mod.rs:498-519 | answering by kind is one dispatch step of the cluster |
| GossipRuntime.Runtime.Handle | crates/pulsate-cluster/src/gossip/mod.rs:484-519 | handling a datagram is an absorb step followed by a dispatch step, or nothing for another protocol version |
| GossipRuntime.Runtime.HandleAck | crates/pulsate-cluster/src/gossip/mod.rs:523-540 | an ack completes the matching probe, or is relayed back to the asker and its relay forgotten |
| FlowSpans.LexIsFaithful | crates/pulsate-flow/src/lexer.rs:86-331 | for every text that lexes, the tokens cover it: the gaps hold only blanks and comments, each token reads as its kind character by character, escapes included, and its line and column count the newlines and characters before it |
| FlowSpans.LexIff | crates/pulsate-flow/src/lexer.rs:86-331 | and only the lexer's tokens do: a text lexes to a token list exactly when the list covers the text in this sense |
| FlowSpans.StringReads | crates/pulsate-flow/src/lexer.rs:228-273 | string content is read up to a quote with a value exactly if the content stands for the value unit by unit: a plain character for itself, a backslash and n, t or r for newline, tab or return, a backslash and another character for that character |
| FlowSpans.ReadsIsToken | crates/pulsate-flow/src/lexer.rs:181-226 | whatever reads as a token at a place is the token the lexer finds there |
| FlowSpans.LexErrorMeans | crates/pulsate-flow/src/lexer.rs:228-299 | lexing fails only where the tokens so far leave a quote that nothing closes or an environment reference without a later brace, with the matching message, and the complaint spans from there to the end |
| FlowLexer.TokenAdvances | crates/pulsate-flow/src/lexer.rs:181-226 | reading a token always moves forward within the text |
| FlowScanner.Lexer.constructor | crates/pulsate-flow/src/lexer.rs:76-84 | the scanner starts at line one, column one |
| FlowScanner.Lexer.Bump | crates/pulsate-flow/src/lexer.rs:140-150 | one byte forward, with line and column those of the new position |
| FlowScanner.Lexer.SkipBlanks | crates/pulsate-flow/src/lexer.rs:162-179 | skips exactly blanks and a comment |
| FlowScanner.Lexer.SkipComment | crates/pulsate-flow/src/lexer.rs:162-179 | skips exactly to the end of the line |
| FlowScanner.Lexer.ConsumeSeparatorRun | crates/pulsate-flow/src/lexer.rs:116-133 | skips exactly one separator run |
| FlowScanner.Lexer.LexAtom | crates/pulsate-flow/src/lexer.rs:301-331 | reads the longest atom |
| FlowScanner.Lexer.LexEnv | crates/pulsate-flow/src/lexer.rs:275-299 | reads a reference up to the first closing brace, or fails |
| FlowScanner.Lexer.LexString | crates/pulsate-flow/src/lexer.rs:228-273 | reads a string whose content stands for its value up to the closing quote, or fails exactly if no quote closes it |
| FlowScanner.Lexer.StringChar | crates/pulsate-flow/src/lexer.rs:228-273 | reads one plain character, or a backslash and the character it stands for |
| FlowScanner.Lexer.NextToken | crates/pulsate-flow/src/lexer.rs:181-226 | reads the token the specification finds at the cursor |
| FlowScanner.Lexer.Run | crates/pulsate-flow/src/lexer.rs:86-112 | the whole scan equals the lexing function: the tokens cover the text, or the complaint is about something never closed |
| FlowRender.RenderLexes | crates/pulsate-flow/src/lexer.rs:86-331 | lexing the written form of a token list gives the list back, then the end marker |
| FlowRender.TokenReadsBack | crates/pulsate-flow/src/lexer.rs:181-226 | each token kind, written out, is read back |
| FlowRender.StringReadsBack | crates/pulsate-flow/src/lexer.rs:228-273 | an escaped string is read back as it was |
| FlowRoundTrip.ParseRoundTrip | crates/pulsate-flow/src/parser.rs:64-349 | parsing the canonical tokens of any well-formed tree gives the tree back up to spans |
| FlowRoundTrip.StmtsBack | crates/pulsate-flow/src/parser.rs:71-96 | the same for the statements of a document or a block, anywhere in a token list |
| FlowRoundTrip.StmtBack | crates/pulsate-flow/src/parser.rs:98-130 | for a block, a directive or a route |
| FlowRoundTrip.RouteBack | crates/pulsate-flow/src/parser.rs:214-234 | for a route with its matcher and steps |
| FlowRoundTrip.MatcherBack | crates/pulsate-flow/src/parser.rs:236-273 | for a matcher of any kind with its predicates |
| FlowRoundTrip.PredsBack | crates/pulsate-flow/src/parser.rs:276-312 | for a list of predicates |
| FlowRoundTrip.StepBack | crates/pulsate-flow/src/parser.rs:314-349 | for a step with or without arguments |
| FlowRoundTrip.ArgBack | crates/pulsate-flow/src/parser.rs:146-169 | for a positional or named argument |
| FlowRoundTrip.ValueBack | crates/pulsate-flow/src/parser.rs:171-188 | for a value, arrays nested to any depth |
| FlowRoundTrip.ItemsBack | crates/pulsate-flow/src/parser.rs:190-212 | for the items of an array |
| FlowText.TextRoundTrip | crates/pulsate-flow/src/parser.rs:26-28 | any well-formed tree written as text lexes and parses back to itself up to spans |
| FlowText.LexEndsWithEof | crates/pulsate-flow/src/lexer.rs:86-112 | what the lexer returns always ends with the end marker the parser relies on |
| FlowDerivation.ParseIff | crates/pulsate-flow/src/parser.rs:26-349 | on any ordered token list the parser gives a tree exactly if the grammar, written as a relation between stretches of tokens and trees with their spans, derives the tree: separators, trailing commas, bare predicates and lookahead included |
| FlowDerivation.AcceptedIff | crates/pulsate-flow/src/parser.rs:26-28 | a text is accepted with a tree exactly if some tokens cover it and the grammar derives the tree from them |
| FlowDerivation.StmtsRead | crates/pulsate-flow/src/parser.rs:71-96 | whatever statements the grammar derives are read |
| FlowDerivation.StmtsDerive | crates/pulsate-flow/src/parser.rs:71-96 | whatever statements are read the grammar derives |
| FlowErrors.FailsAtTheFirstBadToken | crates/pulsate-flow/src/parser.rs:64-358 | a parse error points at the first token such that no document starts with the tokens up to and including it: the tokens before it can be completed to a document, with it nothing that follows helps |
| FlowErrors.StmtsKept | crates/pulsate-flow/src/parser.rs:71-96 | what was read, or failed, by some token is read, or fails, again in any list that agrees up to it |
| FlowErrors.StmtsComplete | crates/pulsate-flow/src/parser.rs:71-96 | statements that fail at a token can be completed from the tokens before it |
| FlowAccepted.RewritingKeepsTheTree | crates/pulsate-flow/src/parser.rs:26-28 | every text the lexer and parser accept gives a well-formed tree that can be written out, and reading it back gives the same tree up to spans |
| FlowAccepted.StmtsAreWf | crates/pulsate-flow/src/parser.rs:64-349 | whatever parses is well formed |
| FlowAccepted.StmtsWords | crates/pulsate-flow/src/parser.rs:64-349 | every word of a parsed tree is one the lexer reads |
| FlowNodeSpans.ParsedTextIsNested | crates/pulsate-flow/src/parser.rs:64-368 | for every text that lexes and parses, all nodes lie in the text, in order, disjoint and inside their parents |
| FlowNodeSpans.StmtCovers | crates/pulsate-flow/src/parser.rs:98-130 | a statement spans from its keyword to the last of its tokens that is no separator |
| FlowNodeSpans.RouteCovers | crates/pulsate-flow/src/parser.rs:214-234 | a route spans from its keyword to the end of its last step, or of its matcher |
| FlowNodeSpans.MatcherCovers | crates/pulsate-flow/src/parser.rs:236-273 | a matcher spans exactly its tokens, its pattern before its predicates |
| FlowNodeSpans.StepCovers | crates/pulsate-flow/src/parser.rs:314-349 | a step spans from its name to its closing parenthesis |
| FlowNodeSpans.ArgCovers | crates/pulsate-flow/src/parser.rs:146-169 | an argument spans from its name or value to the end of its value |
| FlowNodeSpans.ValueCovers | crates/pulsate-flow/src/parser.rs:171-212 | a value spans exactly its tokens, array items nested inside |
| FlowParser.Parser.constructor | crates/pulsate-flow/src/parser.rs:26-28 | the cursor starts at the first token |
| FlowParser.Parser.Bump | crates/pulsate-flow/src/parser.rs:50-56 | the cursor moves on but never past the end marker |
| FlowParser.Parser.SkipSeparators | crates/pulsate-flow/src/parser.rs:58-62 | skips exactly the separators at the cursor |
| FlowParser.Parser.ParseValue | crates/pulsate-flow/src/parser.rs:171-188 | reads what the grammar finds, and fails where it fails, with the same diagnostic and the cursor at the token it is about |
| FlowParser.Parser.ParseArray | crates/pulsate-flow/src/parser.rs:190-212 | likewise for arrays |
| FlowParser.Parser.ParseItems | crates/pulsate-flow/src/parser.rs:190-212 | likewise for the item loop |
| FlowParser.Parser.ParseArg | crates/pulsate-flow/src/parser.rs:146-169 | likewise for arguments |
| FlowParser.Parser.ParseSpaceArgs | crates/pulsate-flow/src/parser.rs:133-142 | likewise for the argument loop of a directive |
| FlowParser.Parser.ParseParenArgs | crates/pulsate-flow/src/parser.rs:314-349 | likewise for the argument loop of a step |
| FlowParser.Parser.ParseStep | crates/pulsate-flow/src/parser.rs:314-349 | likewise for steps |
| FlowParser.Parser.ParseSteps | crates/pulsate-flow/src/parser.rs:214-234 | likewise for the step loop of a route |
| FlowParser.Parser.StepBehindArrow | crates/pulsate-flow/src/parser.rs:219-222 | reads the step behind an arrow and any separators |
| FlowParser.Parser.ParsePred | crates/pulsate-flow/src/parser.rs:276-312 | likewise for predicates |
| FlowParser.Parser.ParsePreds | crates/pulsate-flow/src/parser.rs:276-312 | likewise for the predicate loop |
| FlowParser.Parser.ParseMatcher | crates/pulsate-flow/src/parser.rs:236-273 | likewise for matchers |
| FlowParser.Parser.ParseRoute | crates/pulsate-flow/src/parser.rs:214-234 | likewise for routes |
| FlowParser.Parser.ParseStmt | crates/pulsate-flow/src/parser.rs:98-130 | likewise for statements |
| FlowParser.Parser.ParseStmts | crates/pulsate-flow/src/parser.rs:71-96 | likewise for the statement loop, with remaining tokens as the measure |
| FlowParser.Parser.ParseDocument | crates/pulsate-flow/src/parser.rs:64-67 | the whole parse equals the grammar on every list that ends with the end marker |
| CacheKey.KeyIsExact | crates/pulsate-cache/src/lib.rs:190-203 | two requests share a key exactly when they agree on method, host, full target and every configured field, named in any case, missing as empty |
| CacheKey.BuildKey | crates/pulsate-cache/src/lib.rs:190-203 | the loop builds that key |
| CachePolicy.VaryGate | crates/pulsate-cache/src/lib.rs:303-347 | the loop lets a response through exactly when every member its Vary header lists between commas, blanks aside, is configured in some case and none is a star |
| CachePolicy.TtlMeans | crates/pulsate-cache/src/lib.rs:303-347 | a response has a lifetime exactly if it is a 200 without cookies whose Cache-Control mentions neither no-store nor private and whose Vary is covered; the lifetime is zero for no-cache, else the seconds that s-maxage, or without it max-age, last spells, else the default |
| CachePolicy.TagsMean | crates/pulsate-cache/src/lib.rs:391-403 | a response carries the tags its Cache-Tag header lists, or X-Cache-Tag if there is none |
| CacheHeaders.ListOfMeans | crates/pulsate-cache/src/lib.rs:317-320 | a list has exactly the members that stand, between commas or ends and without the blanks around them, at some positions of the text |
| CacheHeaders.DirectivesMean | crates/pulsate-cache/src/lib.rs:369-388 | a directive is known exactly if some member gives it, named in any case before the first equals sign |
| CacheHeaders.ValuesMean | crates/pulsate-cache/src/lib.rs:369-388 | and has the value the last such member gives it, blanks and then quotes around it removed |
| CacheHeaders.NumberMeans | crates/pulsate-cache/src/lib.rs:342 | a text is read as a 64-bit number exactly if it is the number in decimal, after zeros and an optional plus sign |
| CacheReuse.HitIsReusable | crates/pulsate-cache/src/lib.rs:222-299 | in every run a hit is the latest accepted store under its key, for a request that agrees on method, host, target and every field the Vary header lists, storable by its headers, with its age in seconds, no older than its lifetime plus the stale window, and fresh exactly within the lifetime |
| CacheReuse.HitIff | crates/pulsate-cache/src/lib.rs:222-299 | in every run a lookup hits exactly when some accepted store of the key was neither replaced, removed by a refused store, evicted, dropped as expired, purged nor cleared since, and its age is within lifetime plus window |
| CacheReuse.AcceptedIff | crates/pulsate-cache/src/lib.rs:248-299 | in every run a response is accepted exactly if its status and headers allow it, all it varies on is configured, its body is within both limits, and there is room for one more entry besides its own key |
| CacheReuse.StaysUntilTakenOut | crates/pulsate-cache/src/lib.rs:222-299 | one operation keeps an entry unchanged exactly unless it accepts another under the key or takes the entry out in one of those ways |
| CacheReuse.EntryIsLatest | crates/pulsate-cache/src/lib.rs:248-299 | every stored entry is the latest accepted response for its key, neither replaced, purged by a tag it carries, nor cleared since |
| CacheReuse.AccountingHolds | crates/pulsate-cache/src/lib.rs:272-298 | along every run the byte total is the sum of the stored bodies and within budget, and entries are within their cap |
| CacheStore.RemoveExact | crates/pulsate-cache/src/lib.rs:98-102 | removing an entry keeps the total exact, and the subtraction never saturates |
| CacheStore.PurgeExact | crates/pulsate-cache/src/lib.rs:139-154 | so does purging a tag |
| CacheStore.EvictsExact | crates/pulsate-cache/src/lib.rs:352-366 | eviction keeps the total exact, and makes room for any body within the budget |
| CacheStore.EvictionIsLeast | crates/pulsate-cache/src/lib.rs:352-366 | against any oldest-first set whose removal makes room, every victim is in the set or was stored at the very instant of one of its entries |
| CacheStore.LeastIff | crates/pulsate-cache/src/lib.rs:352-366 | an eviction is contained in every oldest-first way to make room exactly when none of its victims would have fitted beside the body and everything newer |
| CacheStore.EveryEvictionIsLeastIff | crates/pulsate-cache/src/lib.rs:352-366 | told before the call: every order of eviction is least exactly when no entry at the boundary instant fits beside everything newer |
| CacheStore.BoundaryIsUnique | crates/pulsate-cache/src/lib.rs:352-366 | there is at most one instant from which on the entries do not fit and after which they do |
| CacheStore.EvictionIsFewest | crates/pulsate-cache/src/lib.rs:352-366 | in particular eviction is least whenever all storage times differ |
| CacheStore.TiesMayCostMany | crates/pulsate-cache/src/lib.rs:352-366 | at one instant any number of entries may go where a single one would make room |
| CacheStore.VictimsAreOldest | crates/pulsate-cache/src/lib.rs:352-366 | only the victims go, and nothing kept is older than a victim |
| CacheStore.StoresExact | crates/pulsate-cache/src/lib.rs:248-299 | storing, with its removal, refusal and eviction paths, keeps the accounting |
| CacheMemory.MemoryStore.constructor | crates/pulsate-cache/src/lib.rs:116-118 | a store starts empty |
| CacheMemory.MemoryStore.Remove | crates/pulsate-cache/src/lib.rs:98-102 | removes one entry and its bytes |
| CacheMemory.MemoryStore.Purge | crates/pulsate-cache/src/lib.rs:139-154 | drops exactly the tagged entries and their bytes in one pass, and returns how many |
| CacheMemory.MemoryStore.Clear | crates/pulsate-cache/src/lib.rs:157-162 | empties the store |
| CacheMemory.MemoryStore.Lookup | crates/pulsate-cache/src/lib.rs:222-245 | serves a fresh or stale entry, drops an expired one |
| CacheMemory.MemoryStore.OldestKey | crates/pulsate-cache/src/lib.rs:352-366 | finds an entry none is older than |
| CacheMemory.MemoryStore.EvictUntilFits | crates/pulsate-cache/src/lib.rs:352-366 | evicts oldest-first while the body does not fit |
| CacheMemory.MemoryStore.MaybeStore | crates/pulsate-cache/src/lib.rs:248-299 | stores, or refuses for each of the reasons, as the run theorems describe |
| CacheMemory.TooBigEmptiesTheStore | crates/pulsate-cache/src/lib.rs:284-287 | a body over the whole budget empties the store and is still refused |
| EditDistance.Levenshtein | crates/pulsate-config/src/compile.rs:686-700 | the two-row swapping loop returns the recursive edit distance |
| EditDistance.FillRow | crates/pulsate-config/src/compile.rs:692-699 | one pass of the inner loop turns the row of a prefix into the row of the next |
| EditDistance.LevIsLeast | crates/pulsate-config/src/compile.rs:686-700 | no chain of single-character edits is shorter than the distance |
| EditDistance.LevIsReached | crates/pulsate-config/src/compile.rs:686-700 | some chain is exactly that long |
| EditDistance.LevTriangle | crates/pulsate-config/src/compile.rs:686-700 | the distance satisfies the triangle inequality |
| EditDistance.LevSymmetric | crates/pulsate-config/src/compile.rs:686-700 | and is symmetric |
| EditDistance.Nearest | crates/pulsate-config/src/compile.rs:677-684 | a name is suggested exactly when one lies within two edits, and it is the first of the closest |
| Routing.PickMeans | crates/pulsate-router/src/lib.rs:152-166 | the picked route matches and no route scores higher; nothing is picked exactly when nothing matches |
| Routing.PickTakes | crates/pulsate-router/src/lib.rs:152-166 | the picked route takes the request, by method in any case and by path, and nothing is picked exactly when no listed route takes it |
| Routing.ScoresWhatItTakes | crates/pulsate-router/src/lib.rs:80-100 | a route scores exactly the requests it takes: an exact or regex route its own text, a prefix route the prefix and what lies below it at a segment boundary |
| Routing.GlobTakes | crates/pulsate-router/src/lib.rs:80-100 | in particular a glob takes the bare prefix and what follows it after a slash, never a longer segment that begins alike |
| Routing.PrefixOfMeans | crates/pulsate-router/src/lib.rs:177-193 | the prefix of a pattern is what is left without a final star and then a final slash |
| Routing.LastMaxMeans | crates/pulsate-router/src/lib.rs:152-166 | choosing by score takes the last of the greatest |
| Routing.TiesExactly | crates/pulsate-router/src/lib.rs:80-100 | two matches of one path score alike exactly when they are the same kind and text, or at the listed prefix lengths: 999,000 bytes against an exact path, the length that wraps to a regex's score, and lengths past 32 bits |
| Routing.ScoreDecidesShape | crates/pulsate-router/src/lib.rs:80-100 | away from those lengths equal scores mean equal kind and equal prefix or literal |
| Routing.OrderFreeIff | crates/pulsate-router/src/lib.rs:152-166 | for any site and request, every order of the routes gives the same route exactly when no two different routes match at the highest score |
| Routing.ShapeFreeIff | crates/pulsate-router/src/lib.rs:152-166 | the same for kind and text alone, exactly when all routes at the highest score share them |
| Routing.OrderIsIrrelevant | crates/pulsate-router/src/lib.rs:152-166 | permuting a site's routes never changes the picked kind and prefix if no prefix has a tying length |
| Routing.OrderDecidesIff | crates/pulsate-router/src/lib.rs:152-166 | on such a site the order decides which route a request gets exactly when a route at the highest score has a different one of the same kind and text that admits the method too |
| Routing.NoRivalsNoOrder | crates/pulsate-router/src/lib.rs:152-166 | a site without two different routes of one kind and text and overlapping methods never depends on the order |
| Routing.PairOrderIff | crates/pulsate-router/src/lib.rs:152-166 | for two routes that is exact: some request tells their two orders apart exactly when they are such rivals |
| Routing.OrderDecidesForRivals | crates/pulsate-router/src/lib.rs:152-166 | a prefix route for POST and the same prefix for every method: a POST gets whichever is listed last |
| Routing.ExactWinsIff | crates/pulsate-router/src/lib.rs:80-100 | an exact route beats a prefix route in either order exactly when the prefix is shorter than 999,000 bytes or so long that its score wraps or falls back |
| Routing.RegexWinsIff | crates/pulsate-router/src/lib.rs:80-100 | a regex route beats a prefix route that matches too, in either order, exactly at the prefix lengths whose score wraps below ten |
| Routing.LongerWinsIff | crates/pulsate-router/src/lib.rs:87-95 | of two matching prefixes the longer wins in either order exactly when its score does not wrap or both lengths are past the wrap |
| Routing.CatchAllShadowsRegex | crates/pulsate-router/src/lib.rs:80-100 | a catch-all prefix answers a path that a regex route spells out, in either order |
| Routing.RegexPickedIff | crates/pulsate-router/src/lib.rs:152-166 | on a site whose prefix scores do not wrap, a regex route is picked exactly when one takes the request and no exact and no prefix route does |
| Routing.SitePrecedence | crates/pulsate-router/src/lib.rs:152-166 | with prefixes under 999,000 bytes: an exact route exactly when one takes the request, else the longest prefix that does, else regex, else nothing |
| Routing.PicksTheLastTop | crates/pulsate-router/src/lib.rs:152-166 | of the routes at the highest score the last listed is picked |
| Routing.FirstWinsIff | docs/06-reverse-proxy.md:49 | the first listed of the equally specific routes is picked exactly when it is the only one |
| Routing.RefinedWinsIff | docs/06-reverse-proxy.md:49 | a route with a method is picked exactly when no equally specific one without is listed after the last such route |
| Routing.OrderDecidesAtTheTie | crates/pulsate-router/src/lib.rs:80-100 | at 999,000 bytes the two tie and the later one wins |
| Routing.HostScore | crates/pulsate-router/src/lib.rs:115-131 | the loop finds the best pattern's score |
| Routing.BestPatternMeans | crates/pulsate-router/src/lib.rs:115-131 | exact beats wildcard beats default, and nothing else matches |
| Routing.WildcardIff | crates/pulsate-router/src/lib.rs:115-131 | a wildcard host matches exactly the hosts with something before its suffix |
| Routing.WildcardIgnoresTheDot | crates/pulsate-router/src/lib.rs:115-131 | the dot is not asked for: a host that only ends like the domain matches, the bare domain does not |
| Routing.WithoutPortMeans | crates/pulsate-router/src/lib.rs:195-197 | the name of a host is what stands before its first colon |
| Routing.HostPrecedence | crates/pulsate-router/src/lib.rs:152-160 | the chosen site serves the name before the port as specifically as any does, by name, wildcard or default, and none is chosen exactly when none serves it |
| Routing.NamedSiteWins | crates/pulsate-router/src/lib.rs:152-160 | a site that names the host is never passed over for one that does not |
| Routing.ResolveMeans | crates/pulsate-router/src/lib.rs:152-166 | a lookup answers with a route, taking the request, of a site that serves the host as specifically as any; there is no answer exactly when no site serves the host or no route of the chosen site takes the request |
| Translation.EmissionAgreesIff | crates/pulsate-k8s/src/translate.rs:135-138 | for sorted lines, the first that matches has the kind and prefix the router picks from any listing of them, exactly unless an exact line and a prefix of 999,000 bytes or more match the request together (prefixes below 4 GiB) |
| Translation.TranslationAgrees | crates/pulsate-k8s/src/translate.rs:191-260 | the same for all rules of a site whose prefixes stay under 999,000 bytes, and all requests |
| Translation.PicksLastSharing | crates/pulsate-k8s/src/translate.rs:135-138 | listed as emitted, the router picks the last matching line of the first match's kind and prefix |
| Translation.SameLineIff | crates/pulsate-k8s/src/translate.rs:135-138 | so it reaches the first match's upstream exactly when no other matching line has that kind and prefix |
| Translation.NoRivalsSameLine | crates/pulsate-k8s/src/translate.rs:135-138 | and always does on a site without two lines of one kind and prefix and overlapping methods |
| Translation.UpstreamsDiffer | crates/pulsate-k8s/src/translate.rs:191-260 | two emitted lines for one prefix, one of them for POST: the first match and the router reach different upstreams |
| Translation.TranslationPicksLast | crates/pulsate-k8s/src/translate.rs:191-260 | both statements for all rules of a site whose prefixes stay under 999,000 bytes |
| Translation.LookupAgrees | crates/pulsate-k8s/src/translate.rs:98-121 | through host selection, on any host: kind and prefix of the first match, and its last line of that kind, for prefixes under 999,000 bytes |
| TranslationMeaning.TranslationKeepsMeaning | crates/pulsate-k8s/src/translate.rs:191-260 | a site translated from rules answers exactly the requests some rule asks for, and sends each to the upstream of a rule that asks for it |
| TranslationMeaning.LineTakes | crates/pulsate-k8s/src/translate.rs:221-245 | the line of a match takes exactly the requests the match asks for: the method in any case, an exact path, or the path and what lies below it, trailing slashes aside |
| TranslationMeaning.LinesTakeWhatIsAsked | crates/pulsate-k8s/src/translate.rs:191-245 | a request reaches an upstream by some line of a site exactly if some rule for that upstream asks for it |
| TranslationMeaning.SiteLinesAreTheRules | crates/pulsate-k8s/src/translate.rs:191-209 | a site's lines are exactly the lines of its rules |
| Translation.SiteLinesAreEmission | crates/pulsate-k8s/src/translate.rs:127-133 | a site's lines always come out strictly sorted and well formed |
| Translation.InsertHolds | crates/pulsate-k8s/src/translate.rs:127-133 | inserting a line keeps all others and replaces one with the same key |
| Translation.KeyLessTransitive | crates/pulsate-k8s/src/translate.rs:135-138 | the key order is transitive |
| Translation.KeyLessTotal | crates/pulsate-k8s/src/translate.rs:135-138 | and total |
| Translation.PrefixToGlobIsGlob | crates/pulsate-k8s/src/translate.rs:253-260 | the glob of a path prefix matches as the prefix without its trailing slashes |
| Translation.Accumulate | crates/pulsate-k8s/src/translate.rs:95-121 | the accumulation loop gathers the sorted lines |
| AuditLog.HeadBinds | crates/pulsate-waf/src/lib.rs:443-473 | two logs that verify and end in the same hash are identical, or hold a pair of different messages with one tag; for equally long logs, or for any lengths numbered by position |
| AuditLog.AppendKeeps | crates/pulsate-waf/src/lib.rs:411-427 | an append keeps the log verifying and its numbers equal to positions |
| AuditLog.AppendedLogsVerify | crates/pulsate-waf/src/lib.rs:411-455 | every log built by appending verifies and holds the events in order |
| AuditLog.VerifiesIff | crates/pulsate-waf/src/lib.rs:443-483 | a log verifies exactly if every entry carries the hash before it, the first an empty one, and its own hash is, in lower-case hexadecimal, the tag of that hash, the number in eight bytes least significant first, and the event |
| AuditLog.Audit.constructor | crates/pulsate-waf/src/lib.rs:403-408 | a log starts empty |
| AuditLog.Audit.Append | crates/pulsate-waf/src/lib.rs:411-427 | chains one entry onto the log, returning its number |
| AuditLog.Audit.Verify | crates/pulsate-waf/src/lib.rs:443-455 | the loop accepts exactly the logs in which every entry is chained onto the one before |
| AuditLog.HexInjective | crates/pulsate-waf/src/lib.rs:476-483 | the hex form of a tag determines the tag |
| AuditLog.MessageSplits | crates/pulsate-waf/src/lib.rs:467-473 | a hashed message determines previous hash, number and event |
| RequestIds.IssuedAreDistinct | crates/pulsate-observe/src/ids.rs:25-31 | the first 2^64 identifiers a process issues are pairwise distinct, whatever the clock reads, and a later millisecond sorts later until the 48 bits of clock start over |
| RequestIds.IssueAll | crates/pulsate-observe/src/ids.rs:25-31 | the generator, called once per clock reading, issues exactly those identifiers |
| RequestIds.DrawnIsPosition | crates/pulsate-observe/src/ids.rs:27 | the k-th call draws k, for the first 2^64 calls |
| RequestIds.IdsAreDistinct | crates/pulsate-observe/src/ids.rs:25-31 | different 64-bit counters never give the same identifier under any two clocks |
| RequestIds.IdsSortAsValues | crates/pulsate-observe/src/ids.rs:33-41 | identifiers sort as strings exactly as their 128-bit values, and are equal exactly when those are |
| RequestIds.LaterSortsLater | crates/pulsate-observe/src/ids.rs:25-41 | a later millisecond of the same 2^48 sorts later |
| RequestIds.IdSays | crates/pulsate-observe/src/ids.rs:25-41 | an identifier is 26 digits of the base-32 alphabet that spell the clock modulo 2^48 above the low 80 bits of the counter times the spreading constant |
| RequestIds.OddCancels | crates/pulsate-observe/src/ids.rs:29 | an odd factor cancels modulo any power of two |
| RequestIds.SpreadInjective | crates/pulsate-observe/src/ids.rs:29 | the spread counter is injective on 64-bit counters modulo 2^80 |
| RequestIds.EncodeOrder | crates/pulsate-observe/src/ids.rs:33-41 | fixed-width base-32 digits order as the numbers |
| RequestIds.EncodeLoop | crates/pulsate-observe/src/ids.rs:33-41 | filling the array from the end writes the digits most significant first |
| RequestIds.Generator.constructor | crates/pulsate-observe/src/ids.rs:11 | the counter starts at zero |
| RequestIds.Generator.RequestId | crates/pulsate-observe/src/ids.rs:25-31 | draws the next counter value and encodes it under the clock |
| RateLimit.LessThanTwiceTheLimit | crates/pulsate-waf/src/lib.rs:75-102 | any half-open span of one window holds fewer than twice the limit of allowed checks of a key, for every run of times in order |
| RateLimit.DeniedOnlyAfterLimit | crates/pulsate-waf/src/lib.rs:75-102 | a check is denied only if the limit of earlier checks of its key was allowed less than a window ago |
| RateLimit.OneTickHoldsTheLimit | crates/pulsate-waf/src/lib.rs:75-102 | with a window of one tick a span holds at most the limit |
| RateLimit.NeverMoreThanMost | crates/pulsate-waf/src/lib.rs:75-102 | for every limit and window, no window-long span of any run holds more than the stated most: one below twice the limit, the limit for one tick, nothing for an empty window |
| RateLimit.MostIsReached | crates/pulsate-waf/src/lib.rs:75-102 | for every limit and window some run reaches it, so it is exact |
| RateLimit.TracksHolds | crates/pulsate-waf/src/lib.rs:82-90 | a bucket's count stands for the checks allowed in its window, at every point of every run |
| RateLimit.RateLimiter.constructor | crates/pulsate-waf/src/lib.rs:66-72 | no key has a bucket at first |
| RateLimit.RateLimiter.Check | crates/pulsate-waf/src/lib.rs:75-102 | charges the key's bucket, reopened once its window has elapsed, and reports the outcome the history theorems are about |
| RateLimit.CheckAll | crates/pulsate-waf/src/lib.rs:75-102 | a limiter answers a run of checks with the outcomes of that run |
| RateLimit.OutcomeFromHistory | crates/pulsate-waf/src/lib.rs:75-102 | in every run a check is allowed exactly if the checks of its key since the one that opened its window are within the limit, and is told what is left of it and the whole seconds to the end of that window |
| RateLimit.BucketFromHistory | crates/pulsate-waf/src/lib.rs:82-90 | a bucket starts at the check that opened the window and counts the checks of its key since |
| Balancer.RoundRobinIsFair | crates/pulsate-proxy/src/lib.rs:188-199 | any stretch of round-robin picks over an unchanged rotation serves any two targets within one of each other |
| Balancer.OutExactlyWhenTripped | crates/pulsate-proxy/src/lib.rs:177-244 | a target is out exactly when its latest outcomes are failures since its last success, at least the threshold of them, and the last to complete the threshold came less than the open time ago |
| Balancer.FailuresStaySmall | crates/pulsate-proxy/src/lib.rs:233-244 | the failure count stays below the threshold, so it never overflows |
| Balancer.NeverPicksEjected | crates/pulsate-proxy/src/lib.rs:188-218 | no run ever picks a target that is out, under any policy |
| Balancer.PickIsInRotation | crates/pulsate-proxy/src/lib.rs:188-218 | a pick is in rotation, and there is none exactly when every target is out |
| Balancer.TicketDecides | crates/pulsate-proxy/src/lib.rs:188-218 | in every run a round-robin, random or hashed pick is the target in rotation with as many before it as its ticket modulo their number: the successful picks so far, plain or multiplied by the mixing constant in 64 bits, or the client's hash |
| Balancer.LeastLoadDecides | crates/pulsate-proxy/src/lib.rs:200-203 | a pick by load is the first target in rotation with the fewest requests in flight |
| Balancer.LoadCounts | crates/pulsate-proxy/src/lib.rs:246-256 | a target's load is the requests begun there less those finished, 64 bits wide |
| Balancer.EligibleMeans | crates/pulsate-proxy/src/lib.rs:188-194 | the rotation holds exactly the targets that are not out |
| Balancer.Upstream.constructor | crates/pulsate-proxy/src/lib.rs:133-156 | targets start idle and in rotation |
| Balancer.Upstream.EligibleNow | crates/pulsate-proxy/src/lib.rs:188-194 | the filter loop computes the rotation |
| Balancer.Upstream.LeastBusy | crates/pulsate-proxy/src/lib.rs:200-203 | the first target with the fewest requests in flight |
| Balancer.Upstream.Pick | crates/pulsate-proxy/src/lib.rs:188-218 | picks by policy and advances the counter only where the policy does |
| Balancer.Upstream.RecordSuccess | crates/pulsate-proxy/src/lib.rs:222-229 | clears the streak and any ejection; an unknown target is ignored |
| Balancer.Upstream.RecordFailure | crates/pulsate-proxy/src/lib.rs:233-244 | counts the failure, and ejects and starts over at the threshold |
| Balancer.Upstream.Begin | crates/pulsate-proxy/src/lib.rs:246-250 | one more request in flight |
| Balancer.Upstream.Finish | crates/pulsate-proxy/src/lib.rs:252-256 | one fewer request in flight, wrapping at zero |

## Left out

- UDP sockets, timers, task scheduling, lock poisoning and the postcard byte format of gossip frames: frames are values, and the event loop is the nondeterministic choice of the next step.
- The pseudo-random generator behind shuffles: any order is allowed.
- Address changes and restarts of a cluster node under the same identifier: an incarnation starts over at zero in the code too, so the ownership theorem is about one lifetime of each node.
- Typing of Flow values into booleans, numbers, durations and sizes, and escapes and columns of non-ASCII text.
- Configuration lowering and its checks (`validate`, duplicate names, host collisions), snapshots and digests.
- Which hosts a Gateway listener exposes, upstream blocks and the rendered Flow text of a translation: the model works on route keys and routes; rules without a backend never reach it.
- Ties between wildcard hosts: the last such site wins, in the model as in the code, and nothing more is claimed of them.
- `request_allows_cache`, and header values that are not readable as text.
- Web application firewall signatures and normalisation, and IP access lists.
- Weighted targets, retries and forwarding itself; the hash behind the IP-hash policy is a parameter.
- TLS, HTTP serving, ACME, plugins, the admin API, importers, metrics and the dashboard.
- Increments that land between the sends of one gossip round: the code takes its lock once per change and once per send, so the frames of one round can carry different counters there, while all sends of a step show one state here. Runs with such an interleaving are not in the model.
- Translation.Accumulate: gathers the lines of one site; the loops that place a rule on every host of its gateways are left out, because they only decide which rules a site gathers.
- Routing.OrderIsIrrelevant: speaks of kind and prefix alone, because the route itself may depend on the order; `OrderDecidesIff` says exactly when.
- Balancer.RoundRobinIsFair: holds before the counter wraps at 2^64 picks, because at the wrap two neighbouring picks need not be neighbours in the rotation.
- RateLimit.RateLimiter.Check: does not model the request count wrapping at 2^64 within one window.
- GossipTurns.EveryLivePeerIsProbed: holds before the probe counter wraps at 2^64, because at the wrap the turn jumps unless the number of live peers divides it.
- TranslationMeaning.TranslationKeepsMeaning: is about rules whose methods are not empty words, because the translation refuses a match with an empty method before it makes lines.
- GossipOwnership.CounterNeverOvercounts: does not model the 64-bit wrap of counter slots and of their sum.
