# Verified model of kertical

kertical is a Kubernetes operator with two jobs. A **PortForwarding** resource forwards ports of every
node to the endpoints of a Service, by nftables rules. An **ExternalProxy** resource puts a Service, its
endpoint slices and an Ingress in front of backends outside the cluster. This project models the parts
of both where the order of steps, stale data and partial failure matter, and proves what they guarantee.
`dafny verify dfyconfig.toml` checks everything.

## The parts

**nftables compiler.** `Conditions` builds the expressions of a rule and recognises them again;
`Forwardings` compiles a forwarding to a rule and a set for each of four chains; `Interpreter` gives
expressions a meaning on registers, header bytes, conntrack state, marks and sets (destination address
at offset 16 of the IPv4 header, section 3.1 of RFC 791; destination port at offset 2, section 3.1 of RFC
9293 and RFC 768). `Meaning` proves what the four chains do to every packet.

**Ruleset engine.** `RuleCache` is the reader's rule array, shifted in place by `DeleteRule` while an
iteration still ranges over it. `Kernels` applies queued commands to a ruleset. `Mutations` makes a rule
present or removes it; `Foundation` says which batches the kernel takes, and with `Teardown` presents and cleans
up the chain structure of one hook. `Duplicates` is the case of a rule that is there several times, `Acceptance`
what the kernel then says to the whole batch of a hook. `Startup` is the start of an instance on whatever an
earlier run left behind, `Installer` the additions and removals after it, `Removal` what a removal leaves.
`Delivery` follows any history of additions, removals and restarts, and `Hooks` what every packet meets at the
kernel's hooks, by their numbers, at every point of it.

**PortForwarding reconciler.** `PortDiff` is the difference between spec and record, `Guard` the set of held
ports, `NodeSync` one node's turn, `States` the state in which it records every port, `Tracking` whether the record
names every held port, over runs with reads of any age, and `Finalizer` all nodes interleaving after deletion.

**ExternalProxy controller.** `Expectations` is the store of pending creates and deletes, `Services` the code
around it, `ServiceGate` the protocol of API server, lagging cache, event handler and controller,
`EndpointSlices` the slices, `Defaulting` the webhook's defaults and name checks.

`TableVote` and `Userdata` are two small exact pieces; `Encoding`, `Sorting`, `Searching` and `Options` are shared.

## What the code does not do

These are proved, with an input that shows them and the exact condition under which all is well.

- Set names contain the host port and the hook but not the protocol. When TCP and UDP of one host port each go
  to several targets, no contents of the named sets serve both, unless the targets are the same
  (`Meaning.SharedNameExample`, `Meaning.SharedNameMisroutes`; some contents serve every lookup exactly under
  `NoClash`, `Meaning.ServableExactly`). How the kernel tells two anonymous sets of one name apart is not modelled.
- The start clears an earlier run's rules only at hooks that have a base chain. A regular chain left over at a hook
  without one keeps its rules, and the new jump leads into it (`Startup.LeftoverNotServed`; the start leads to
  working chains exactly under `Fresh` at every hook, `Startup.StartedServesExactly`).
- A removal does nothing at a hook without a base chain, so removing undoes adding exactly when every hook has one
  (`Installer.AddThenRemove`).
- A removal that names another number of targets than was added, both more than one, takes the rules of two hooks and
  leaves those of the other two (`Removal.HalfRemoved`; exact condition in `Removal.RemovedServesExactly`).
- Deleting while ranging over the shifted array skips the rule after a deleted one
  (`RuleCache.CleansExactly`: the iteration is complete exactly when there is no inner pair of selected neighbours),
  and goes on over stale copies of the last rule. It deletes that one again as long as some cached rule has its
  handle, and handles are distinct within a table only (`RuleCache.RepeatsExactly`).
- So the kernel may refuse the clean-up of a hook as a whole: two jumps in a row leave one that names the chain to
  be deleted (`Acceptance.DoubledRefused`); with a rule of another table that shares the last jump's handle a
  deletion is queued twice (`Acceptance.SharedRefused`). For any number of base chains and jumps, the batch is
  accepted exactly when no base chain has two jumps in a row and no sweep, that of the established rule included,
  queues a deletion twice (`Acceptance.CleanUpAcceptedExactly`), which holds when every base chain has the jump at
  most once (`Acceptance.RemovableIsUntangled`). Presenting a structure is refused exactly when
  a deletion is queued twice (`Acceptance.PresentAcceptedExactly`).
- The comment above `mostFrequencyTable` promises the most frequent table, also the fallback on a tie; the
  code finds a majority only (`TableVote.PluralityIsNotFound`). The model follows the code.
- The comment codec returns a comment exactly up to 65533 bytes; comments of 65534 and of 65535 bytes make decoding
  panic, and one of 65536 bytes reads as empty (`Userdata.RoundTripExactly`, `Userdata.TooLong`; every length in
  `Userdata.UnmarshalStored`).
- The difference never compares target ports (`PortDiff.StaleTargetPort`, exact condition in
  `PortDiff.TargetPortsRightExactly`).
- A numeric target also matches a service port without a name (`PortDiff.NumberFindsNumber`).
- A failed status patch after a successful addition leaves a port held and unrecorded
  (`Tracking.UnpatchedTurnLosesTrack`), and so does a turn that works on an outdated record
  (`Tracking.StaleReadLosesTrack`). A port that changes its protocol while the removal under the old one fails is
  recorded beside the new one, under one number; the next turn reads the later entry only and forgets the port it
  still holds (`Tracking.FailedRemovalLosesTrack`). The exact condition, for one turn and for whole runs, is `KeepsTrack`
  (`Tracking.TracksExactly`, `Tracking.RunTracksExactly`; `Tracking.FreshTracksExactly` for a current record).
- Defaulting dereferences a nil pointer for a named backend port without number and, with a single service
  port, for an ingress rule with neither host nor HTTP part (`Defaulting.Safe` is the exact condition).
- Matching with a counter panics on a rule that ends where the counter is expected, in particular on a rule
  without expressions (`Conditions.Panics`).

## What is assumed

- The kernel applies a batch in order and as a whole. It refuses a batch, and then nothing of it happens, if a
  command names a rule or a chain that is missing, adds a jump to a missing chain or deletes a chain that is still
  jumped to. Handles are numbered per table, and a new chain is listed last.
- The base chains of one hook are in one table and have the type and priority derived for the hook; without any, the
  table is the one `mostFrequencyTable` picks (`Startup.GroupTable`). Before a start this may be any table; a majority
  decides it in whatever order chains are listed (`Startup.MajorityIsFound`), and while all base chains of a type are
  in the usual table, nat or filter, it is that one (`Startup.UsualTablesAreFound`).
- Before a start the ruleset is `Restartable`: jumps name existing chains, no base chain bears a regular chain's
  name, whoever jumps to a regular chain is the structure's own jump in a base chain of its hook, and that jump and
  the established rule are there at most once. Every start, addition and removal keeps this, and keeps every hook's
  table.
- Forwardings have a non-empty list of IPv4 targets and ports in 1..65535, and their protocol is TCP or UDP.
- Resources do not share host ports of a node.
- After deletion is stamped no earlier sync is still running, and `Consistent` holds then; when it does is in
  `Tracking`.
- Only the controller creates Services owned by its resource, it reconciles a resource once at a time, a failed
  write has no effect, the cache is updated before the handler runs, and the API server keeps names unique
  among Services that exist.
- The list of owned endpoint slices is current when they are reconciled.

## Model

| member | source | states |
|---|---|---|
| `Conditions.Build` | internal/portforwarding/nftables/condition/condition.go:37-43 | the build loop yields the concatenation of what the members build, at any nesting depth |
| `Conditions.PrefixMatch` | internal/portforwarding/nftables/condition/condition.go:433-443 | for a list without counters the prefix matcher returns the full length when the list agrees pointwise with the front of the input and 0 otherwise, short inputs included |
| `Conditions.Match` | internal/portforwarding/nftables/condition/condition.go:52-62 | the structured matcher, recursing through combinations and the two conditions with a dynamic part, refines the flat comparison with the built list on every input, index panic of the counter included; a combination with a member that builds nothing matches nothing |
| `Conditions.MatchAll` | internal/portforwarding/nftables/condition/condition.go:45-62 | the loop of a combination keeps the number of matched expressions equal to what its members built so far |
| `Conditions.FlatMatchConcat` | internal/portforwarding/nftables/condition/condition.go:52-62 | matching a concatenation is matching the first part and then the second on the rest, with the same panics |
| `Conditions.RecognisedExactly` | internal/portforwarding/nftables/mutation/filter/filter.go:41-45 | a rule with expressions is recognised exactly when it agrees pointwise with what the condition builds, so every condition recognises its own rule; a rule without expressions is recognised exactly when the built list does not start with a counter |
| `Conditions.RuleExpr` | internal/portforwarding/nftables/mutation/filter/filter.go:41-45 | the filter accepts a rule exactly when the whole rule is matched, provided the counter does not panic on it |
| `Conditions.HollowNeverMatches` | internal/portforwarding/nftables/condition/condition.go:52-62 | a combination with an empty member does not even match what it builds itself |
| `Expressions.AgreementIsNotTransitive` | internal/portforwarding/nftables/condition/condition.go:554-565 | three lookups show that equality of lookups by id or name is not transitive |
| `Forwardings.SortedIgnoresOrder` | internal/portforwarding/nftables/nftables.go:119-122 | the sorted target list does not depend on the order the targets are given in |
| `Forwardings.SortedInOrder` | internal/portforwarding/nftables/nftables.go:119-122 | the sorted targets come in the order of their bytes, from the smallest on |
| `Forwardings.InternalNameExactly` | internal/portforwarding/nftables/nftables.go:238-243 | set names coincide exactly for equal host port and equal hook; the protocol is not part of the name |
| `Forwardings.InternalNameSpelled` | internal/portforwarding/nftables/nftables.go:238-243 | a set name is spelled from kind, instance, host port and hook, in lower case |
| `Forwardings.RecognisesExactly` | internal/portforwarding/nftables/nftables.go:118-207 | the rule of one forwarding is taken for the rule of another exactly when protocol, host port, target port and (single) target agree, whatever the random set ids; several targets count only by number in the chains that rewrite and not at all in those that filter |
| `Forwardings.MembersAgree` | internal/portforwarding/nftables/condition/condition.go:52-62 | two combinations with equally long members agree exactly when they agree member by member |
| `Interpreter.EvalConcat` | internal/portforwarding/nftables/condition/condition.go:37-43 | evaluating a concatenation is evaluating the first part and then, unless it stopped, the second |
| `Interpreter.EstablishedMeans` | internal/portforwarding/nftables/condition/condition.go:299-313 | the state test of the established rule, with its mask, holds exactly when the established or the related bit is set |
| `Interpreter.ConditionMeans` | internal/portforwarding/nftables/condition/condition.go:112-409 | evaluating what a condition builds on registers, packet, marks and sets does what the condition says about the packet, for every packet and nested combination |
| `Meaning.IndexMapEntries` | internal/portforwarding/nftables/nftables.go:132-135 | the index map of n sorted targets has exactly the keys 0..n-1, each leading to the target at that position |
| `Meaning.ServableExactly` | internal/portforwarding/nftables/nftables.go:124-151 | some contents of the named sets serve every lookup of the compiled rules exactly when no two forwardings with several targets share a host port, except with the same targets |
| `Meaning.BoundOnlyWithoutClash` | internal/portforwarding/nftables/nftables.go:124-151 | whatever sets there are: if every lookup finds the elements compiled for its rule, set names do not clash |
| `Meaning.SharedNameMisroutes` | internal/portforwarding/nftables/nftables.go:124-135 | where two forwardings of one host port differ in the target whose turn it is, no contents of the sets sends a packet of each to its own target |
| `Meaning.SharedNameExample` | internal/portforwarding/nftables/nftables.go:238-243 | host port 53 forwarded for TCP and for UDP to two targets each: no sets serve both |
| `Meaning.PreroutingMeans` | internal/portforwarding/nftables/nftables.go:157-166 | a packet for a forwarded protocol (6 or 17 in byte 9 of the IPv4 header) and host port gets the host port as mark, the target whose turn it is and the target port, and nothing else of it changes; every other packet passes unchanged |
| `Meaning.OutputMeans` | internal/portforwarding/nftables/nftables.go:195-204 | the same for packets from a local address (address type 2), without a mark; all others pass unchanged |
| `Meaning.ForwardMeans` | internal/portforwarding/nftables/nftables.go:182-192 | FORWARD accepts exactly packets of established or related connections and packets some forwarding admits |
| `Meaning.PostroutingMeans` | internal/portforwarding/nftables/nftables.go:169-179 | POSTROUTING masquerades exactly the packets some forwarding admits |
| `Meaning.ForwardingMeans` | internal/portforwarding/nftables/nftables.go:156-207 | a packet for a forwarded port is redirected in PREROUTING, accepted in FORWARD and masqueraded in POSTROUTING, if lookups find the elements of their own rules |
| `Meaning.RoundRobinIsFair` | internal/portforwarding/nftables/condition/condition.go:492-497 | of as many consecutive new connections to a forwarded port as it has targets, from any counter value on, PREROUTING sends each address as many as it is listed times |
| `RuleCache.ReadWriter.DeleteRule` | internal/portforwarding/nftables/readwrite.go:186-201 | the first cached rule with the handle, whatever its table, is taken out by shifting the array in place, which leaves a stale copy behind the slice, and the deletion is queued; without such a rule nothing happens |
| `RuleCache.ReadWriter.DeleteMatching` | internal/portforwarding/nftables/mutation/mutation.go:578-587 | deleting while ranging over the shifted array queues exactly the deletions `Gone` names, the last rule again from its stale slots included, and leaves exactly the cached rules that `Remains`, for any handles whatever |
| `RuleCache.RepeatsExactly` | internal/portforwarding/nftables/readwrite.go:186-201 | a deletion is queued twice exactly when the last cached rule is selected, another one is deleted before the iteration gets to it and a cached rule of whatever table has its handle |
| `RuleCache.DistinctSweep` | internal/portforwarding/nftables/readwrite.go:186-201 | with distinct handles nothing is queued twice and the cache keeps what the iteration passes over, in order |
| `RuleCache.CleansExactly` | internal/portforwarding/nftables/readwrite.go:59-69 | the iteration removes every selected rule exactly when no two selected rules are neighbours (except at the very end), and then leaves precisely the others in order |
| `RuleCache.OthersSurvive` | internal/portforwarding/nftables/readwrite.go:186-201 | no rule outside the selection is lost or reordered, whatever the selected rules are |
| `Kernels.Refresh` | internal/portforwarding/nftables/readwrite.go:222-264 | a fresh reader caches the rules of base chains and of chains with the instance's prefix, chain by chain, and queues nothing |
| `Kernels.AddRuleKeepsWellFormed` | internal/portforwarding/nftables/readwrite.go:167-182 | adding a rule, first or last, keeps the ruleset well formed: chains listed once, handles distinct within a chain and below the next one of the table |
| `Kernels.DelRuleKeepsWellFormed` | internal/portforwarding/nftables/readwrite.go:186-201 | a deleted rule leaves the ruleset well formed |
| `Kernels.SelectsInChain` | internal/portforwarding/nftables/mutation/mutation.go:505-507 | among all fetched rules the filters of one chain select a rule exactly when it is a recognised rule of that chain |
| `Mutations.PresentRule` | internal/portforwarding/nftables/mutation/mutation.go:562-575 | a rule nobody recognises is added once, first or last, with its comment; otherwise the first match stays and the sweep runs behind it |
| `Mutations.CleanUpRule` | internal/portforwarding/nftables/mutation/mutation.go:578-587 | cleaning up sweeps the whole cache and queues the deletions it makes |
| `Installer.Recognition` | internal/portforwarding/nftables/mutation/mutation.go:562-587 | among the rules of the installed forwardings a condition recognises exactly those of forwardings that share its rule, never the established rule, and panics on none |
| `Installer.NfTables.AddForwarding` | internal/portforwarding/nftables/nftables.go:60-67 | the first addition starts the instance, once; the four mutations, each on a fresh reader and in the table found for the hook, append one rule per chain and add the sets of several targets |
| `Installer.NfTables.Start` | internal/portforwarding/nftables/nftables.go:83-89 | closing first and presenting then, hook by hook, each on a fresh reader and in the table found or voted for by then, gives the ruleset `Started`; at which kernel hooks its base chains are is in `Hooks.FromNothing` and `Hooks.HistoryForwards` |
| `Installer.NfTables.Close` | internal/portforwarding/nftables/nftables.go:76-78 | the structure is cleaned up with force at the four hooks in order |
| `Installer.NfTables.RemoveForwarding` | internal/portforwarding/nftables/mutation/mutation.go:165-183 | the four mutations delete the recognised rule of each chain whose hook has a base chain, and nothing else; a missing chain is passed over |
| `Installer.AddedServes` | internal/portforwarding/nftables/mutation/mutation.go:130-160 | a ruleset whose four chains hold the rules of some forwardings, with a base chain at every hook, serves one more after an addition |
| `Installer.AddedCarries` | internal/portforwarding/nftables/nftables.go:118-207 | after an unused forwarding is added the four chains hold its rules behind the others', the sets are those of all forwardings in order, and no other chain changes |
| `Installer.AddThenRemove` | internal/portforwarding/nftables/mutation/mutation.go:130-183 | removing gives every chain its old rules back, handles included, for any order of the targets and any random ids, exactly when every hook has a base chain |
| `Removal.RemovedServes` | internal/portforwarding/nftables/nftables.go:70-72 | where no installed forwarding is found in part, a removal leaves the chains of the list without the one it names, or of the same list |
| `Removal.RemovedServesExactly` | internal/portforwarding/nftables/condition/condition.go:485-502 | after a removal the chains are those of some list of forwardings exactly when no installed one differs from the named one only in the number of several targets |
| `Removal.PartlyExactly` | internal/portforwarding/nftables/nftables.go:118-207 | the rules of one forwarding are taken for those of another at some hooks only exactly when protocol and ports agree and both have several targets, of different number |
| `Removal.HalfRemoved` | internal/portforwarding/nftables/nftables.go:70-72 | from an empty ruleset: two targets added, three named in the removal, and the chains serve no list of forwardings any more |
| `Foundation.PresentFoundation` | internal/portforwarding/nftables/mutation/mutation.go:385-410 | presenting the structure of a hook queues the stated batch, whatever base chains there are and however often each holds the jump: table if there is no base chain, regular chain, own rule, then jump by jump on the cache as the sweeps before left it |
| `Foundation.PresentReached` | internal/portforwarding/nftables/nftables.go:210-222 | where every base chain has the jump at most once the kernel takes that batch and the ruleset has the structure: regular chain, own rule in front, a jump at the end of every base chain or in a new one |
| `Foundation.PresentRegular` | internal/portforwarding/nftables/mutation/mutation.go:450-466 | the regular chain is created before anything else, and its own rule is presented first in it |
| `Foundation.AcceptedResolves` | internal/portforwarding/nftables/nftables.go:263-283 | in a batch the kernel takes, after every prefix of it every jump names an existing chain of its table |
| `Foundation.FirstInChain` | internal/portforwarding/nftables/mutation/mutation.go:562-575 | in a chain with at most one such rule, presenting it finds it exactly when it is there and sweeps nothing |
| `Teardown.CleanUpFoundation` | internal/portforwarding/nftables/mutation/mutation.go:46-60 | cleaning up queues the stated batch, whatever base chains there are and however often each holds the jump: the sweeps of the base chains one after the other on the shrinking cache, then the own rule and the chain; nothing without a base chain |
| `Teardown.CleanUpReached` | internal/portforwarding/nftables/nftables.go:76-78 | where every base chain has the jump at most once the kernel takes that batch, and nothing of the structure is left |
| `Teardown.RegularDropped` | internal/portforwarding/nftables/mutation/mutation.go:471-487 | the regular chain loses its own rule and then goes, once the base chains have lost their jumps: the kernel takes both |
| `Teardown.StillCached` | internal/portforwarding/nftables/readwrite.go:186-201 | closing the gap of a rule with another handle does not hide a chain's rule from the rest of the clean-up |
| `Teardown.NobodyJumps` | internal/portforwarding/nftables/mutation/mutation.go:412-423 | once the base chains are cleaned no rule jumps to the regular chain |
| `Teardown.PresentedRemovable` | internal/portforwarding/nftables/nftables.go:210-222 | a structure in place can be cleaned up or presented again |
| `Teardown.PresentThenCleanUp` | internal/portforwarding/nftables/nftables.go:92-112 | presenting and force-cleaning leaves every other chain untouched and every base chain with its old rules in order, without the jump; the regular chain is gone and a created base chain stays, empty |
| `Teardown.PresentThenCleanUpRestores` | internal/portforwarding/nftables/nftables.go:76-89 | where the regular chain was not there before, all rules are exactly what they were |
| `Duplicates.SweepClearsExactly` | internal/portforwarding/nftables/readwrite.go:186-201 | for any well-formed ruleset, whatever handles other tables use: a sweep's deletions clear a chain of recognised rules exactly when the cache has no two of them in a row, the very end excepted; no other rule of any chain goes; and the kernel takes them exactly when none is queued twice |
| `Duplicates.PresentLeavesOneExactly` | internal/portforwarding/nftables/mutation/mutation.go:562-575 | presenting a rule that is there several times leaves just the first exactly when no two of the others stand in a row, the very end excepted, and the kernel takes the deletions exactly when none is queued twice |
| `Acceptance.CleanUpAcceptedExactly` | internal/portforwarding/nftables/mutation/mutation.go:46-60 | over all base chains of a hook and any number of jumps in each: the kernel takes the clean-up exactly when no base chain has two jumps in a row, the very end excepted, and no sweep queues a deletion twice; then every jump is gone, every other rule of the base chains stays in order and the regular chain is gone |
| `Acceptance.DoubledRefused` | internal/portforwarding/nftables/mutation/mutation.go:578-587 | two jumps in a row with a rule behind them: the second is skipped, still names the regular chain, and the kernel refuses the batch |
| `Acceptance.SharedRefused` | internal/portforwarding/nftables/readwrite.go:186-201 | a jump, another rule and a jump in a nat chain and a filter rule with the last jump's handle: the batch deletes that jump twice, and the kernel refuses it |
| `Acceptance.RemovableIsUntangled` | internal/portforwarding/nftables/nftables.go:76-78 | a structure whose base chains have the jump at most once meets the condition of a clean-up, in whatever tables |
| `Acceptance.PresentAcceptedExactly` | internal/portforwarding/nftables/mutation/mutation.go:385-410 | over all base chains and any number of jumps in each: the kernel takes the batch that presents the structure exactly when no sweep queues a deletion twice |
| `Startup.StartedServesExactly` | internal/portforwarding/nftables/nftables.go:83-89 | from any restartable ruleset, the start makes the four chains serve no forwarding with nothing else in them exactly when every hook has a base chain or a regular chain that is missing, empty or already right; the result can be started in again |
| `Startup.ClearedChains` | internal/portforwarding/nftables/nftables.go:76-78 | closing takes the regular chain away at hooks with a base chain, leaves it as it was at the others, and changes no hook's having a base chain |
| `Startup.LaidChains` | internal/portforwarding/nftables/nftables.go:92-112 | after the structure is presented at the first hooks it is in place there in front of what the chain had, and the other regular chains are as they were |
| `Startup.LeftoverSurvives` | internal/portforwarding/nftables/mutation/mutation.go:165-183 | every rule of a regular chain left over at a hook without a base chain is still there after the start |
| `Startup.LeftoverNotServed` | internal/portforwarding/nftables/mutation/mutation.go:165-183 | a ruleset with one leftover chain and no base chain: after the start the chains do not serve the empty list |
| `Startup.EmptyIsRestartable` | internal/portforwarding/nftables/nftables.go:83-112 | the empty ruleset can be started in, for every instance name, exactly in the usual tables nat, nat, filter and nat |
| `Startup.FindTable` | internal/portforwarding/nftables/mutation/mutation.go:130-144 | the table of the hook's base chains, or the one the voting loop returns for the hook's chain type and fallback |
| `Startup.MajorityIsFound` | internal/portforwarding/nftables/mutation/mutation.go:136-144 | at a hook without a base chain, a table with more than half of the votes for the hook's chain type is the one chains go to, in whatever order chains are listed |
| `Startup.UsualTablesAreFound` | internal/portforwarding/nftables/derive/derive.go:11-26 | while all base chains at the kernel's hooks 0, 3 and 4 are in the table nat the chains for these hooks go there, and while all others are in the table filter those of the forward hook go there |
| `Startup.VotedAfterPresenting` | internal/portforwarding/nftables/mutation/mutation.go:136-144 | a base chain added in the voted table, whose own vote counts from then on, changes the vote of no hook |
| `Delivery.HistoryWorks` | internal/portforwarding/nftables/nftables.go:60-89 | after the start and any history of additions, removals and restarts the chains serve exactly the forwardings installed by then, lookups find their own elements, and the instance can be started again |
| `Hooks.HistoryForwards` | internal/portforwarding/nftables/nftables.go:60-112 | at every point of such a history every base chain at the kernel's hooks 0, 2, 3 and 4 holds the jump to the chain of its hook, there is at least one, and from the jump on: a packet for a forwarded port is redirected and marked at 0, accepted at 2 and masqueraded at 4; at 3 exactly packets from local addresses to forwarded ports are rewritten; 2 accepts exactly established, related and admitted packets, 4 masquerades exactly admitted ones, and every other packet goes on behind the jump unchanged |
| `Hooks.FromNothing` | internal/portforwarding/nftables/nftables.go:92-112 | started on the empty ruleset, after every history there are exactly the base chains nat PREROUTING, OUTPUT and POSTROUTING at 0, 3 and 4 and filter FORWARD at 2, each with the jump to the instance's chain alone |
| `Hooks.HookMeets` | internal/portforwarding/nftables/nftables.go:209-222 | walking the rules that the ruleset holds, a packet that gets to the jump in a base chain meets what the rules of the forwardings do, or goes on behind the jump |
| `Delivery.StillRestartable` | internal/portforwarding/nftables/nftables.go:60-72 | additions and removals leave a ruleset that can be cleaned up and started in again |
| `TableVote.MostFrequencyTable` | internal/portforwarding/nftables/mutation/mutation.go:206-219 | the loop returns the candidate of the vote |
| `TableVote.MajorityWins` | internal/portforwarding/nftables/mutation/mutation.go:206-219 | a table with more than half of the votes, the fallback's own vote included, is returned; the result is the fallback or the table of a chain of the wanted type |
| `TableVote.WinnerStays` | internal/portforwarding/nftables/mutation/mutation.go:206-219 | one more vote for the winner, or a chain of another type, leaves the winner |
| `TableVote.PluralityIsNotFound` | internal/portforwarding/nftables/mutation/mutation.go:203-205 | the most frequent table need not win: for tables A, A, B, C and fallback F the result is C |
| `Userdata.Marshal` | internal/portforwarding/nftables/userdata/userdata.go:6-15 | an empty comment gives no data; otherwise a 16-bit big-endian length of comment plus terminator, the bytes and a zero |
| `Userdata.StoredBytes` | internal/portforwarding/nftables/userdata/userdata.go:6-15 | the stored form is two bytes of length, high byte first and counting the zero, then the text and a zero |
| `Userdata.RoundTripExactly` | internal/portforwarding/nftables/userdata/userdata.go:6-30 | decoding an encoded comment gives it back exactly when it has at most 65533 bytes |
| `Userdata.UnmarshalStored` | internal/portforwarding/nftables/userdata/userdata.go:20-30 | what decoding makes of every stored comment, by its length modulo 65536: a panic, or the front of the comment |
| `Userdata.TooLong` | internal/portforwarding/nftables/userdata/userdata.go:20-30 | comments of 65534 and 65535 bytes make decoding panic, one of 65536 bytes reads as empty |
| `PortDiff.FindEndpointSlicePort` | internal/controller/networking/portforwarding/portforwarding.go:31-44 | the port of the first slice that offers one: the only port of a slice whatever its name, else the first with the target's name or number; a port is returned exactly when some slice offers one |
| `PortDiff.FindServicePort` | internal/controller/networking/portforwarding/portforwarding.go:47-69 | the protocol and number found are exactly those the target stands for: of the first service port with its number or name, or, for a headless service, of the endpoint port that this one leads to; without an endpoint port nothing is found |
| `PortDiff.NumberFindsNumber` | internal/controller/networking/portforwarding/portforwarding.go:47-50 | a numeric target finds the port with that number exactly when no unnamed port with another number comes first |
| `PortDiff.SyncForwardingPorts` | internal/controller/networking/portforwarding/portforwarding.go:75-161 | the two loops over a shrinking map answer every spec port: an error exactly if its target stands for no port; otherwise what it asks for is added or kept, with the host port or else the number found for a source port, protocol and number found, and the cluster IP or the sorted ready addresses of all slices for hosts; nothing else is added, and the replaced and unclaimed entries are deleted |
| `PortDiff.WantMeans` | internal/controller/networking/portforwarding/portforwarding.go:89-153 | a spec port has an entry exactly when its target stands for a port, and the entry is the one it asks for |
| `PortDiff.DiffPartitions` | internal/controller/networking/portforwarding/portforwarding.go:78-86 | with distinct recorded source ports deletions and unchanged entries are a partition of the recorded ones |
| `PortDiff.EveryPortAnswered` | internal/controller/networking/portforwarding/portforwarding.go:89-155 | every spec port yields exactly one of an error, its recorded entry or its own new entry |
| `PortDiff.ReplayGivesTheWanted` | internal/controller/networking/portforwarding/portforwarding.go:128-161 | replaying deletions, then additions leaves exactly the wanted source ports, each with the wanted protocol and hosts, whatever was recorded |
| `PortDiff.TargetPortsRightExactly` | internal/controller/networking/portforwarding/portforwarding.go:129-143 | the replay also gets the target ports right exactly when no recorded entry agrees in source port, protocol and hosts but not in target port |
| `PortDiff.StaleTargetPort` | internal/controller/networking/portforwarding/portforwarding.go:129-143 | a service that moves from port 80 to 8080 behind a fixed host port keeps its old entry |
| `PortDiff.WantsIgnoreOrder` | internal/controller/networking/portforwarding/portforwarding.go:100-119 | shuffling endpoints inside their slices changes nothing that is wanted |
| `PortDiff.SecondSyncDoesNothing` | internal/controller/networking/portforwarding/portforwarding.go:75-161 | if every spec port resolves to a source port of its own, a second sync on what the first one left, in any order and any states and with shuffled endpoints, adds and deletes nothing |
| `Guard.GuardPortForwarding.AddForwarding` | internal/portforwarding/portforwarding.go:60-81 | refused as forwarded exactly if held, rejected exactly if not held, TCP or UDP and in use, and held from then on exactly if it was not, is TCP or UDP and free, and the underlying call succeeds |
| `Guard.GuardPortForwarding.RemoveForwarding` | internal/portforwarding/portforwarding.go:84-97 | a port not held is refused, and the port is let go exactly when the underlying call succeeds |
| `NodeSync.Node.SyncPortForwarding` | internal/controller/networking/portforwarding_controller.go:129-205 | one turn applies the difference through the guard in the order unchanged, deletions, additions, and records the outcome if the patch succeeds; which states it records is in `States.StatesExactly` |
| `NodeSync.Node.RemovePortForwarding` | internal/controller/networking/portforwarding_controller.go:209-238 | removing everything stops at the first failure; otherwise the status is patched to the removed entries with the reason |
| `NodeSync.ReadyIsHeld` | internal/controller/networking/portforwarding_controller.go:150-205 | after every turn that writes the status each entry marked ready is held by the guard, whatever record was read and whatever failed |
| `States.StatesExactly` | internal/controller/networking/portforwarding_controller.go:145-205 | a written turn with distinct wanted ports records exactly: the errors; the unchanged entries, unknown without a port number, in their state if held, else ready if taken on again and failed if not; residual entries for held ports whose removal fails; the new entries, a conflict if still held, rejected if in use, ready if taken on and failed otherwise; in the order of the port numbers |
| `States.RemovalExactly` | internal/controller/networking/portforwarding_controller.go:209-238 | without a service a turn fails exactly when the removal of a held port fails, and leaves the record then; otherwise the ports named are let go and the entries with a port number recorded without targets |
| `Tracking.TracksExactly` | internal/controller/networking/portforwarding_controller.go:129-238 | a turn of any kind, on a record of any age, source ports repeated or not, and with any failed removals, additions and writes, leaves every held port recorded exactly when it keeps track: a written turn forgets no held port that it neither knows from the record nor wants, an unwritten one takes on nothing that is not recorded |
| `Tracking.FreshTracksExactly` | internal/controller/networking/portforwarding_controller.go:129-238 | a turn that reads the record in force leaves every held port recorded exactly when there is no service, the status is written, or every addition the guard accepts is recorded already |
| `Tracking.StaysInOrder` | internal/controller/networking/portforwarding_controller.go:145-205 | a tidy turn on a record of any age writes a record in which every source port occurs once and is a number in range |
| `Tracking.HeldIsRecorded` | internal/controller/networking/portforwarding_controller.go:129-238 | a written turn with distinct source ports (unresolved targets included) and no failed removal keeps everything the guard holds recorded; without a service nothing stays held |
| `Tracking.RunReadyIsHeld` | internal/controller/networking/portforwarding_controller.go:150-205 | in every run, with reads of any earlier record and any failures, after each written turn what is marked ready is held |
| `Tracking.RunTracksExactly` | internal/controller/networking/portforwarding_controller.go:129-238 | in a run with reads of any earlier record and any failed removals, additions and writes, what is held is recorded all the way exactly when every turn keeps track |
| `Tracking.RunHeldIsRecorded` | internal/controller/networking/portforwarding_controller.go:129-238 | in every run of written tidy turns on the record in force what the guard holds is recorded, under distinct source ports |
| `Tracking.UnpatchedTurnLosesTrack` | internal/controller/networking/portforwarding_controller.go:188-205 | a first turn that adds a port but fails to patch the status leaves the port held and unrecorded |
| `Tracking.StaleReadLosesTrack` | internal/controller/networking/portforwarding_controller.go:145-205 | a turn with an empty spec that still reads an empty record leaves held ports held and records nothing |
| `Tracking.FailedRemovalLosesTrack` | internal/controller/networking/portforwarding_controller.go:165-205 | a spec port changes its protocol and the removal under the old one fails: after the next turn, which sees the same spec, that port is still held and no longer recorded |
| `Finalizer.PatchEntry` | internal/controller/networking/portforwarding/status.go:46-62 | the search loop overwrites the node's entry, or appends one |
| `Finalizer.PatchIsLocal` | internal/controller/networking/portforwarding/status.go:46-62 | a patch sets the node's own entry and leaves every other node's entry alone |
| `Finalizer.StillRecorded` | internal/controller/networking/portforwarding/finalizer.go:66-74 | the loop asks for a requeue exactly when some node still has recorded ports |
| `Finalizer.NextInv` | internal/controller/networking/portforwarding/finalizer.go:52-82 | every step of every node, with reads of any version, failed removals and conflicting writes, keeps the invariant |
| `Finalizer.FinalizerGoneNothingHeld` | internal/controller/networking/portforwarding/finalizer.go:52-82 | in every interleaving: once some version is without the finalizer no node holds a port and nothing is recorded from that version on |
| `Finalizer.EmptyBeforeFinalizer` | internal/controller/networking/portforwarding/finalizer.go:52-82 | in every interleaving a node turns to the finalizer only once it holds nothing and its entry in the latest version is empty |
| `Finalizer.StaleSnapshotIsSafe` | internal/controller/networking/portforwarding/finalizer.go:68-74 | if any earlier version recorded nothing, no later version does and no node holds a port, so testing the stale snapshot is safe |
| `Finalizer.StepsKeepOthersEntries` | internal/controller/networking/portforwarding/status.go:38-71 | no step loses or changes another node's entry |
| `Expectations.ControllerExpectations.Expect` | internal/expectations/expectations.go:87-98 | the name joins the set of its action; a new key gets a new store |
| `Expectations.ControllerExpectations.Observe` | internal/expectations/expectations.go:101-120 | the name leaves the set of its action, and a store with nothing left is dropped |
| `Expectations.ControllerExpectations.SatisfiedExpectations` | internal/expectations/expectations.go:123-143 | satisfied exactly when nothing is waited for; otherwise the first such check fixes the time the wait is measured from |
| `Expectations.PendingExactly` | internal/expectations/expectations.go:87-151 | after any trace an expectation is pending exactly when the last event that bears on it registered it |
| `Expectations.SatisfiedExactly` | internal/expectations/expectations.go:123-143 | after any trace a check says satisfied exactly when nothing is pending, and no cached store is empty |
| `Expectations.WaitsNeverShrink` | internal/expectations/expectations.go:132-137 | while a key stays pending its reported wait grows exactly as the clock does |
| `Expectations.WaitsSinceFirstCheck` | internal/expectations/expectations.go:132-137 | the wait reported is the time since the first check after the key became pending |
| `Services.OwnedByExpectation.Create` | internal/events/expectation.go:60-89 | a creation settles its expectation and no other, and is queued at once if something was pending and later otherwise; a stamped object counts as a deletion |
| `Services.OwnedByExpectation.Update` | internal/events/expectation.go:92-97 | an update settles a deletion, and no other, exactly when the object is stamped |
| `Services.OwnedByExpectation.Delete` | internal/events/expectation.go:100-116 | a deletion settles its expectation, no other, and queues the owner |
| `Services.SyncActivatedObject` | internal/controller/networking/externalproxy_controller.go:469-488 | all Services of other names are deleted in order up to the first failure; at the moment each deletion is asked for it is expected already, and the failed one is taken back; the wanted one is kept |
| `Services.SyncService` | internal/controller/networking/externalproxy_controller.go:178-221 | a creation is asked for exactly when none of the wanted name is listed and all others are deleted; it is expected at that moment, and stays expected if it succeeds |
| `ServiceGate.GateInv` | internal/controller/networking/externalproxy_controller.go:115-124 | passing the gate implies that every creation and every own deletion has been handled |
| `ServiceGate.NextInv` | internal/controller/networking/externalproxy_controller.go:115-221 | every step of the controller, the API server, the cache, the handler and third parties keeps the invariant |
| `ServiceGate.GateShowsEverything` | internal/controller/networking/externalproxy_controller.go:115-124 | in every run a reconcile that passes the gate finds every Service ever created in the cache, and every Service it deleted gone from it |
| `ServiceGate.NeverCreatedTwice` | internal/controller/networking/externalproxy_controller.go:191-207 | in every run, whenever a Service is about to be created, none of that name exists that is not going already |
| `ServiceGate.NeverDeletesTheWanted` | internal/controller/networking/externalproxy_controller.go:476-487 | in every run what is deleted bears another name than the one wanted and was not deleted before |
| `ServiceGate.OthersFirst` | internal/controller/networking/externalproxy_controller.go:185-207 | in every run a creation is only begun once the deletion of every listed Service of another name has been asked for |
| `ServiceGate.EventSettles` | internal/events/expectation.go:92-116 | a deletion event for the name a settling deletion waits for concerns that very Service, not an earlier one of the name |
| `EndpointSlices.NewEndpointSlices` | internal/controller/networking/externalproxy/externalproxy.go:71-100 | for each backend in order one slice with the canonical forms of the addresses that parse as IPv4 and one with those that parse as IPv6, in order and each exactly if there are any, named by service, position and family, with the backend's ports, the two labels and the revision |
| `EndpointSlices.FamiliesSplit` | internal/controller/networking/externalproxy/externalproxy.go:202-217 | every valid address is an endpoint of exactly one family, an invalid one of none |
| `EndpointSlices.DesiredNamesDistinct` | internal/controller/networking/externalproxy/externalproxy.go:73-78 | the names of the desired slices are pairwise distinct |
| `EndpointSlices.Api.SyncEndpointSlices` | internal/controller/networking/externalproxy_controller.go:248-307 | the loop with its shrinking index writes what has to be written and deletes what is left over; on a failed write the state is one of the stated intermediate ones |
| `EndpointSlices.SkippingIsSound` | internal/controller/networking/externalproxy/externalproxy.go:197-200 | a slice with the current revision says what is wanted, so it need not be written |
| `EndpointSlices.ReconcilingKeepsSound` | internal/controller/networking/externalproxy_controller.go:248-307 | successful or interrupted anywhere, afterwards every slice still says what its revision stands for |
| `EndpointSlices.SlicesConverge` | internal/controller/networking/externalproxy_controller.go:265-306 | a run of successful writes makes the owned slices exactly the desired ones; labels and annotations of others stay |
| `EndpointSlices.SecondRunWritesNothing` | internal/controller/networking/externalproxy_controller.go:265-306 | an immediate second run writes and deletes nothing |
| `Defaulting.ExternalProxy.ApplyDefaults` | internal/webhook/networking/v1alpha1/externalproxy_webhook.go:134-226 | the defaults are applied exactly when no nil pointer is met: generated ports have numbers and, for a single service port, every ingress rule has a host or HTTP part; then every field is as given or filled in as described |
| `Defaulting.DefaultsFilled` | internal/webhook/networking/v1alpha1/externalproxy_webhook.go:134-226 | field by field: names and types left empty, protocols left out, and for a single service port the default backend or the path types, root paths and port references that rules leave out, are filled in, and nothing else changes |
| `Defaulting.ExternalProxy.GeneratePorts` | internal/webhook/networking/v1alpha1/externalproxy_webhook.go:157-177 | the nested loops with the map of registered names take over exactly the first occurrences |
| `Defaulting.DefaultingIsIdempotent` | internal/webhook/networking/v1alpha1/externalproxy_webhook.go:134-226 | applying the defaults twice is applying them once, and a second application never fails |
| `Defaulting.GeneratedExactly` | internal/webhook/networking/v1alpha1/externalproxy_webhook.go:157-177 | generated ports carry the distinct non-empty backend port names, each with name, protocol and number of its first occurrence and the name for a target, in the order of these, and leave no name out |
| `Defaulting.ValidateServiceNames` | internal/webhook/networking/v1alpha1/externalproxy_webhook.go:393-402 | the loop reports a missing name exactly at the unnamed ports where several are given, and a duplicate exactly where an earlier port has the name |
| `Defaulting.NameErrorsExactly` | internal/webhook/networking/v1alpha1/externalproxy_webhook.go:418-430 | the checks find nothing exactly when there is a port, names are distinct and none is missing among several |
| `Defaulting.GeneratedPassTheChecks` | internal/webhook/networking/v1alpha1/externalproxy_webhook.go:389-430 | the validator finds no missing and no duplicate name among generated ports |

## Left out

- Netlink and `Flush` errors other than a refused batch, which leaves the ruleset as it was. What the caller is told:
  a refusal for something missing ends a run of mutations as if it had succeeded. No batch of a start on a
  `Restartable` ruleset, or of an addition or a removal after it, is refused.
- Native byte order: `Encoding.NativeEndian32` is that of a little-endian host.
- Packet contents beyond addresses, ports, marks and state: checksums, fragments and connection tracking of replies.
- Rules of others in a base chain before the jump: what is said of a packet holds from the jump on. The order of
  several base chains at one hook, and the policy of a base chain for packets that nobody decides.
- Sets: they are looked up by name, a set added under a name in use takes its place, and sets stay when their rules
  go; ids, and what the kernel does with two anonymous sets of one name, are not modelled. `Delivery` therefore asks
  of every addition that names do not clash.
- Round robin: the kernel's counter is a parameter `tick`; per-rule counters of the kernel are not modelled.
- Several tables per hook, base chains with another type or priority than the one derived for their hook, other
  address families.
- Foundation.PresentFoundation: takes the table as given; which one it is says `Startup.FindTable`. A rule without
  expressions in a base chain, on which the counter panics, is excluded (`Conditions.Panics`).
- Teardown.CleanUpFoundation: excludes rules without expressions in base chains likewise.
- Clean-up without force: the code always forces it.
- In-place mutation of shared pointers: conditions, chains and the object stores of expectations are values.
- The order of entries that `slices.SortFunc` finds equal: `Sorting.Sort` fixes one.
- `strconv.Atoi` and `net.ParseIP` are parameters; address texts are canonical where two of them are compared.
- The user-space forwarder, sockets, `/proc/net` parsing: whether a port is in use is a free answer.
- Timeouts, requeue delays and rate limits: no liveness is claimed, and a clock that does not go back is enough.
- The EndpointSlice and Ingress gates: the resolver of slices depends on a Service lookup that may fail.
- Expectations around endpoint slices: the same store, not repeated in `EndpointSlices`.
- Conditions, events and the Ready flag of an ExternalProxy; Ingress objects.
- DNS, label and IP-range validators, certificates, bootstrap, generated code, charts.
- EndpointSlices.Api.SyncEndpointSlices: labels and annotations of an existing slice are never nil maps in the model.
- Services.OwnedByExpectation.Create: the delay of a requeue is only told apart from none.
