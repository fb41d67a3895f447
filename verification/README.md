# A verified model of ledgerdb

ledgerdb is a small distributed log and document database written in Go. A Raft group orders byte
payloads; each replica applies them to a segmented, append-only log on disk, or to a multi-version
document store; producers batch their messages; consumer groups share out partitions. This project
models that core in Dafny and proves what it promises.

`dafny verify dfyconfig.toml` checks everything.

## How the model is built

Code that changes fields step by step is a class whose methods and loops follow the Go code, and each
method is proved equal to a function on values: `RaftPeer.Raft` to the functions of `RaftNode`,
`MVCCStore.MVCC` and `Documents.LockedStore` to the functions beside them, `Storage.Segment` and
`Storage.Log` to `Segments` and `SegmentedLog`, and so on. The theorems are about those functions. Some of
them, whose names end in `Exactly`, say over any run what an operation answers and changes without naming
the functions that compute it: a vote by the votes the messages show, a commit by the peers known to hold
an entry, a verdict by the mutations that took effect, a roll by the payloads.

**Raft** (`Raft*.dfy`, `AckLoss.dfy`). A group is a transition system (`RaftCluster`): a step is one
section of code that holds one peer's mutex, chosen in any order. The network only remembers, so a
message may arrive late, out of order, repeatedly or never, and elections may fire at any time. `Run`
executes any list of steps for any list of distinct peers. The proof carries an auxiliary history of
the run (who led which term with which log, who voted for whom, what was acknowledged and committed)
and one inductive invariant, `RaftInvariant.Inv`, which is shown to hold of every run by one lemma per
kind of step. `NodeAt(peers, steps, i, a)` is peer `a` after `i` steps, so most theorems speak of two
moments of one run. `RaftElectable` and `RaftConverge` show that no run gets stuck: every run of two peers or
more can go on to elect a leader and to have a command applied by all. `RaftVoteRules` and `RaftAppendRules`
have the exact answers.

**Documents** (`Documents.dfy`, `MVCC*.dfy`, `DocHistory.dfy`). The store's chains of stamped versions are compared with the
naive locked store over every run of transactions and garbage collections, and both with the history of
the run.

**Storage** (`Bytes.dfy`, `Segments.dfy`, `SegmentedLog.dfy`, `LogTheorems.dfy`, `LogPacking.dfy`, `LogCrash.dfy`,
`Storage.dfy`). Files are
byte sequences, down to the big-endian length prefixes and index entries. The directory is state of its
own: opening creates files in it, appending writes to them, removing and tiering delete them, and
reopening sees nothing else. The whole log is compared with the plain sequence of payloads appended to it.

**Batches, consumer groups and the bridge** (`Batch.dfy`, `Batchers.dfy`, `ConsumerGroup.dfy`,
`Replication.dfy`, `DocReplication.dfy`). The bridge puts the parts together: what the apply channels of any
two peers of any Raft run leave in their logs and stores.

`Options`, `Sequences`, `Sorting` and `GoSort` are the small common parts: an option type, sequences without
repeats, the sorted enumeration of a set, and Go's `sort.Search`.

## Where a promise fails

For these the code is modelled as it is, a lemma shows the failure on a concrete input, and another says
exactly when the promise holds.

- A failed transaction leaves the store unchanged (docs/design_mvcc.md:56) only if validation failed or
  nothing took effect before the put that does not decode: `MVCCTheorems.FailureAtomicExactly`,
  `MVCCTheorems.FailureNotAtomic`.
- A fresh snapshot sees the end of every document's chain exactly when no transaction since the last
  accepted one was cut short after taking effect: `MVCCTheorems.FreshSeesEndsExactly`. Otherwise it and the
  locked store may part (`MVCCTheorems.FreshReadsPart`), and so may replicas that collected different
  garbage (`DocReplication.CollectedReplicaParts`).
- A write acknowledged by a quorum must survive (docs/design_ack_levels.md:56). The producer drops the
  term Start returned, and waiting compares only the index; the write is there exactly when the entry
  applied at its index has that term: `Replication.AckedExactly`, `AckLoss.AckedWriteLost`. It is enough
  that GetState still gives that term when the wait ends: `Replication.AckedInTerm`.
- A query by the indexed field may return a document that does not have the field, because a missing
  field prints as nil does: `MVCCQuery.QueryExactly`, `MVCCQuery.StrayExists`.
- Reopening after a crash finds the right size only if the file is whole records; a record cut short is
  counted at an offset that cannot be read: `Segments.RecoveryExactly`, `LogCrash.CrashedRun`.
- A record appended to an opened segment reads back exactly when the opened file was whole records:
  `Segments.AppendAfterOpenExactly`. After a torn tail the read may fail (`Segments.TornTailLosesNext`) or
  return other bytes (`Segments.TornTailReadsOther`). For the log, what is appended after a crash reads back
  exactly when the crash left the record whole or untouched, or the append rolls:
  `LogCrash.CrashedRunAppends`.
- Compaction leaves a blob of a dropped segment exactly when the segment was local and an upload had left
  something under its key: `LogTheorems.CompactFrees`, `LogTheorems.CompactionLeavesBlob`.
- The oldest offset survives reopening exactly when no segment is tiered: `LogTheorems.ReopenKeepsOldest`,
  `LogTheorems.RestartForgetsTiered`.
- A plain payload that looks like a batch is unpacked: `Replication.PlainKeptExactly`,
  `Replication.EmptyBatchVanishes`.
- A group can elect a leader exactly when it has two peers or more: `RaftElectable.ElectableExactly`,
  `RaftTheorems.LonePeerNeverLeads`.

The code and docs/design_log_storage.md also differ on two points where the model follows the code: every
segment's index is rebuilt on opening, not only the last one's, and the rule for rolling counts the
four-byte prefix and never rolls an empty segment.

## Model

| member | source | states |
|---|---|---|
| RaftTheorems.ElectionSafety | raft/raft.go:164-248 | Over a whole run, two peers that are ever leaders of the same term are the same peer. |
| RaftTheorems.LonePeerNeverLeads | raft/raft.go:174-213 | A group with a single peer never has a leader, because a vote is only counted when another peer's reply arrives. |
| RaftElectable.Electable | raft/raft.go:164-248 | After any run of two peers or more, a peer whose log is as recent as every other's can be made leader by further steps, with nobody in a later term. |
| RaftElectable.AlwaysElectable | raft/raft.go:164-248 | Every run of two peers or more can go on to one with a leader. |
| RaftElectable.ElectableExactly | raft/raft.go:164-248 | Some run makes a given peer leader if and only if the group has at least two peers. |
| RaftConverge.NeverStuck | raft/rpc_append.go:105-216 | After any run of two peers or more and for any command, further steps end with a leader whose log ends in the command and every peer having that log and having applied all of it. |
| RaftVoteRules.VoteExactly | raft/rpc_vote.go:19-46 | After any run a peer grants a request if and only if the term is not earlier than its own, the candidate's last entry is at least as recent as its own, and no message shows that it gave its vote of that term to another; it answers with the later term and is in it afterwards. |
| RaftVoteRules.StandExactly | raft/raft.go:164-193 | Standing makes the peer a candidate of the next term and sends every other peer a request naming its last entry. |
| RaftVoteRules.VoteReplyExactly | raft/raft.go:194-248 | A later term makes a follower of that term, an answer to an election that is over changes nothing, a granted vote is counted, and a majority makes a leader with a no-op appended, every nextIndex at it and nothing known of the others. |
| RaftAppendRules.AppendExactly | raft/rpc_append.go:24-91 | A request is accepted if and only if its term is not earlier and the log has PrevLogTerm at PrevLogIndex; then exactly the missing entries are added and the commit index is the larger of the two; a refusal names the length of a short log, or the term found and the start of its run. |
| RaftAppendRules.SuccessExactly | raft/rpc_append.go:146-196 | After a success matchIndex is the most ever acknowledged, nextIndex follows what was sent, and the commit index is the largest index of the leader's own term that a majority is known to hold, unless it was there already. |
| RaftAppendRules.RejectionExactly | raft/rpc_append.go:156-172 | After a refusal nextIndex follows the leader's last entry of the term the follower found, or is the index the follower named if the leader has none; nothing else changes. |
| RaftAppendRules.StaleReplyExactly | raft/rpc_append.go:136-144 | An answer of a later term makes a follower of that term; any other answer to a request of another term, or to a peer that does not lead, changes nothing. |
| RaftAppendRules.OwnMatchIndex | raft/rpc_append.go:201-216 | A leader's own matchIndex is its last index. |
| RaftTheorems.LogsWellFormed | raft/rpc_append.go:43-78 | In every reachable log each entry's index is its position and terms do not decrease or pass the peer's term. |
| RaftTheorems.LogMatching | raft/rpc_append.go:43-78 | Logs of any two peers at any two moments that have the same term at an index are equal through it. |
| RaftTheorems.StateMachineSafety | raft/rpc_append.go:80-87 | Two peers, at any two moments, whose commit indexes both reach k hold the same log through k. |
| RaftTheorems.LeaderCompleteness | raft/rpc_append.go:179-196 | A leader of a later term, seen at any moment, before or after the commit, holds everything a peer committed; so does a leader of the same term seen afterwards. |
| RaftTheorems.CommittedPrefixStays | raft/rpc_append.go:65-87 | A peer's commit index never falls, stays within its log and at or above lastApplied, and nothing at or below it is truncated or replaced. |
| RaftTheorems.FollowerCommitRule | raft/rpc_append.go:80-87 | Every request ever sent reaches past the commit index it carries, so clamping to the follower's last index commits what clamping to the last new entry would. |
| RaftTheorems.RequestsIndexed | raft/rpc_append.go:111-128 | In every request ever sent, entry i has index PrevLogIndex + 1 + i, and the log it reaches is indexed by position. |
| RaftTheorems.ClampNeverCuts | raft/rpc_append.go:65-87 | After accepting a request the new entries are in place and the commit index is the one Figure 2 of the Raft paper asks for. |
| RaftSafety.NoPanic | raft/raft.go:271-277 | No enabled section of the code ever indexes a log out of range, in any reachable state. |
| RaftSafety.RunInv | raft/raft.go:95-111 | The inductive invariant behind the safety theorems holds after every run. |
| RaftElection.TimeoutStep | raft/raft.go:164-172 | Starting an election keeps the invariant. |
| RaftElection.VoteRequestStep | raft/rpc_vote.go:19-46 | Answering a vote request keeps the invariant. |
| RaftElection.GrantSafe | raft/rpc_vote.go:33-45 | A candidate that passes the up-to-date check holds every entry the voter acknowledged that may still be chosen. |
| RaftElection.VoteResponseStep | raft/raft.go:194-211 | Counting a vote reply, stale, refused or decisive, keeps the invariant. |
| RaftReplication.SendAppendStep | raft/rpc_append.go:106-129 | Sending a request keeps the invariant. |
| RaftReplication.AppendResponseStep | raft/rpc_append.go:136-172 | Acting on a reply, in any order and however late, keeps the invariant. |
| RaftReplication.BacktrackBounds | raft/rpc_append.go:156-172 | A rejection the leader acts on gives a nextIndex between 1 and the rejected request's PrevLogIndex. |
| RaftReplication.CountedCommit | raft/rpc_append.go:179-196 | A commit by counting has a real majority of peers that acknowledged the index in the leader's own term. |
| RaftReplication.ProposeStep | raft/rpc_append.go:201-216 | Taking a command keeps the invariant. |
| RaftReplication.ApplyStep | raft/raft.go:271-290 | Applying committed entries keeps the invariant. |
| RaftAppend.AppendRequestStep | raft/rpc_append.go:24-91 | Handling a request, accepted or refused, keeps the invariant. |
| RaftAppend.MergeAgrees | raft/rpc_append.go:65-78 | The two merge loops leave the follower's log equal to the leader's through the last new entry, and either untouched or ending there. |
| RaftAppend.MergeKeeps | raft/rpc_append.go:65-78 | Merging never loses a prefix that already agreed with the leader. |
| RaftAppend.RefusalHint | raft/rpc_append.go:33-61 | A refusal's hint names an index at or below the rejected one, and a term the leader does not have there. |
| RaftProgress.MatchIndexTruth | raft/rpc_append.go:146-154 | In every reachable state of a leader, nextIndex is in range and a follower in its term agrees with it through matchIndex. |
| RaftProgress.RejectionMovesBack | raft/rpc_append.go:156-172 | Delivering a rejection moves nextIndex strictly below the probe it answers, never under 1. |
| RaftProgress.CatchUp | raft/rpc_append.go:105-173 | From any reachable state a few probes in a row give a follower that is not ahead in term exactly the leader's log, and the leader knows: at most nextIndex of them, and at most two more than there are terms in the follower's log. |
| RaftProgress.RefusalKeepsShared | raft/rpc_append.go:156-172 | A refused probe never moves nextIndex to or below an entry both logs have. |
| RaftApply.AppliedExactly | raft/raft.go:271-297 | A peer has pushed exactly the non-nil commands of its log through lastApplied, each once, in order. |
| RaftApply.StreamsPrefix | raft/raft.go:271-297 | Of the apply streams of two peers at two moments, the shorter is a prefix of the longer. |
| RaftApply.SameLastSameStream | raft/raft.go:284-288 | Streams that end at the same index are equal. |
| RaftApply.AckedEntrySurvives | raft/rpc_append.go:198-216 | The entry applied at the index Start returned is the proposed one exactly when it has the term Start returned, and then every peer that commits the index has it. |
| RaftApply.EntryKeptInTerm | raft/rpc_append.go:198-216 | As long as the proposing peer's term is the one Start returned, its log has the proposed entry at the index Start returned. |
| RaftPeer.Raft.constructor | raft/raft.go:95-111 | A new peer is a follower of term 0 with only the sentinel entry. |
| RaftPeer.Raft.StartElection | raft/raft.go:164-172 | The new state and the vote request are the specified ones. |
| RaftPeer.Raft.BecomeFollower | raft/raft.go:217-222 | The new state is the specified one. |
| RaftPeer.Raft.BecomeLeader | raft/raft.go:225-248 | The loop fills both index maps for every peer and the no-op is appended. |
| RaftPeer.Raft.HandleVoteReply | raft/raft.go:194-211 | The new state is the specified one in all five cases. |
| RaftPeer.Raft.RequestVote | raft/rpc_vote.go:19-46 | The new state and the reply are those of the step VoteExactly is about. |
| RaftPeer.Raft.FirstOfRun | raft/rpc_append.go:52-56 | The loop finds the start of the run of the conflicting term. |
| RaftPeer.Raft.TruncateConflict | raft/rpc_append.go:65-72 | The loop cuts the log at the first entry that disagrees, if any. |
| RaftPeer.Raft.AppendMissing | raft/rpc_append.go:73-78 | The loop appends exactly the entries past the end. |
| RaftPeer.Raft.MergeEntries | raft/rpc_append.go:65-78 | The two loops together are the one-step merge the theorems are about. |
| RaftPeer.Raft.AdoptEntries | raft/rpc_append.go:65-87 | The log is merged and the commit index moves to the leader's, clamped to the last index. |
| RaftPeer.Raft.AppendEntries | raft/rpc_append.go:24-91 | The new state and the reply are the specified ones, for stale, short, conflicting and matching requests. |
| RaftPeer.Raft.BuildAppendEntries | raft/rpc_append.go:111-128 | The request carries the whole suffix from nextIndex and the commit index. |
| RaftPeer.Raft.CountReplicas | raft/rpc_append.go:185-190 | The loop counts this peer and every other whose matchIndex reaches n. |
| RaftPeer.Raft.AdvanceCommitIndex | raft/rpc_append.go:179-196 | The downward loop gives the commit index SuccessExactly is about. |
| RaftPeer.Raft.FindLastOfTerm | raft/rpc_append.go:161-167 | The loop finds the last entry of a term, or -1. |
| RaftPeer.Raft.HandleAppendReply | raft/rpc_append.go:136-172 | The new state is that of the step SuccessExactly, RejectionExactly and StaleReplyExactly are about. |
| RaftPeer.Raft.Start | raft/rpc_append.go:201-216 | A leader appends one entry and answers its index and term; another peer answers -1. |
| RaftPeer.Raft.ApplyCommitted | raft/raft.go:273-290 | The loop moves lastApplied to the commit index and collects the commands passed, skipping no-ops. |
| Documents.LockedStore.ApplyTransaction | docstore/locked_store.go:30-55 | The new state and the outcome are those VerdictExactly and LockedIsHistory are about. |
| DocHistory.LockedIsHistory | docstore/locked_store.go:57-68 | After any run a document's version counts the puts and deletes of it that took effect, in accepted and in cut-short transactions, and the document is what the last of them left. |
| DocHistory.VerdictExactly | docstore/mvcc_store.go:53-96 | After any run both stores answer a conflict if some version expected is not the number of puts and deletes of that document so far, bad data if a put has no document, and success otherwise. |
| DocHistory.DoneLeaves | docstore/mvcc_store.go:63-95 | A transaction that succeeds leaves of a document what its last put or delete of it says, in the locked store and in a fresh snapshot. |
| DocHistory.IndexExactly | docstore/mvcc_store.go:76-84 | The index holds under every key the ids of the puts that took effect and gave the field that value, in order; without an indexed field it is empty. |
| DocHistory.CollectExactly | docstore/mvcc_store.go:101-117 | Collecting keeps of every chain the versions after the watermark and the last one before it, and nothing else. |
| MVCCStore.MVCC.constructor | docstore/mvcc_store.go:30-36 | A new store is empty at commit index 0. |
| MVCCStore.MVCC.LatestVersionLocked | docstore/mvcc_store.go:40-46 | The last version's number, 0 if there is none. |
| MVCCStore.MVCC.ApplyTransaction | docstore/mvcc_store.go:53-96 | The new state and the outcome are those VerdictExactly is about; the commit index moves only on success. |
| MVCCStore.MVCC.CommitMutations | docstore/mvcc_store.go:63-93 | The loop commits exactly the mutations before the first put that does not decode. |
| MVCCStore.MVCC.CommitMutation | docstore/mvcc_store.go:64-92 | One put or delete pushes one version and, for a put, one index entry; any other op does nothing. |
| MVCCStore.MVCC.KeepFrom | docstore/mvcc_store.go:105-112 | The loop finds the newest version at or before the watermark. |
| MVCCStore.MVCC.PruneAll | docstore/mvcc_store.go:104-116 | The loop over the map, in any order, prunes every chain. |
| MVCCStore.MVCC.GCBefore | docstore/mvcc_store.go:101-117 | The new state is the collected store. |
| MVCCStore.MVCC.Get | docstore/mvcc_store.go:136-154 | On sorted chains the binary search finds what looking at every version would. |
| MVCCTheorems.SnapshotStable | docstore/mvcc_store.go:119-125 | A transaction at a later index, accepted, rejected or cut short, changes nothing a snapshot reads. |
| MVCCTheorems.PruneExactly | docstore/mvcc_store.go:98-117 | Collecting keeps what a snapshot sees of a chain exactly when the oldest version kept is one it could see, or it saw nothing. |
| MVCCTheorems.CollectStable | docstore/mvcc_store.go:98-117 | Collecting at or below a snapshot's point is invisible to it. |
| MVCCTheorems.ApplyRefines | docstore/mvcc_store.go:53-96 | Both stores give the same verdict on every transaction and stay in step. |
| MVCCTheorems.CollectRefines | docstore/mvcc_store.go:101-117 | Collecting at any watermark keeps the store in step with the locked store. |
| MVCCTheorems.Refinement | docstore/mvcc_store.go:53-117 | Over every run of transactions and collections the store's versions, latest documents and verdicts are the locked store's. |
| MVCCTheorems.FailureAtomicExactly | docstore/mvcc_store.go:63-95 | A failed transaction left the store unchanged exactly when validation failed or nothing took effect before the put that does not decode. |
| MVCCTheorems.FailureNotAtomic | docstore/mvcc_store.go:63-69 | A failed transaction whose first put landed. |
| MVCCTheorems.FreshSeesEndsExactly | docstore/mvcc_store.go:63-95 | After any run with ascending indexes a fresh snapshot sees the end of every chain if and only if no transaction since the last accepted one was cut short after taking effect. |
| MVCCTheorems.FreshReadsAgree | docstore/mvcc_store.go:127-154 | In those runs a fresh snapshot reads what the locked store holds. |
| MVCCTheorems.FreshReadsPart | docstore/mvcc_store.go:67-69 | In another run a fresh snapshot misses a document the locked store has. |
| MVCCTheorems.ReadsStay | docstore/mvcc_store.go:136-154 | Reads at a point stay the same through any later transactions and collections at or below it. |
| MVCCTheorems.SnapshotsAreMoments | docstore/mvcc_store.go:119-154 | A snapshot, pinned to the commit index of a moment after which no cut-short transaction is pending, reads for ever what the locked store held at that moment. |
| MVCCQuery.QueryByIndex | docstore/mvcc_store.go:161-182 | With each re-check in a lock section of its own, the result has no repeats and is exactly the candidates that print the value in the snapshot. |
| MVCCQuery.QueryAgrees | docstore/mvcc_store.go:156-182 | Over a run, with the snapshot, the candidate read and each re-check at moments of their own, the re-checks read as QueryByIndex needs, and an id is returned if and only if the locked store at the snapshot's moment held the value in its field, or the value is nil's text and a candidate lacked the field. |
| MVCCQuery.Scan | docstore/mvcc_store.go:189-204 | The result has no repeats and is exactly the ids that exist in the snapshot. |
| MVCCQuery.ScanAgrees | docstore/mvcc_store.go:184-204 | Over a run, with the same moments, a scan returns exactly the ids the locked store held at the snapshot's moment. |
| MVCCQuery.RunCovered | docstore/mvcc_store.go:76-84 | After every run the index covers every version of every chain. |
| MVCCQuery.HolderIsCandidate | docstore/mvcc_store.go:156-163 | Every document that has the value in any snapshot is a candidate. |
| MVCCQuery.QueryExactly | docstore/mvcc_store.go:161-182 | The query returns exactly the documents whose field has the value if and only if there is no candidate without the field when the value is nil's text. |
| MVCCQuery.StrayExists | docstore/mvcc_store.go:177-179 | Such a candidate exists. |
| MVCCQuery.RechecksSeeSnapshot | docstore/mvcc_store.go:161-182 | Whatever commits between the candidate read and the re-checks, they see the snapshot. |
| GoSort.Search | docstore/mvcc_store.go:146-148 | For a test that is false and then true, the first index at which it is true. |
| Bytes.Uint32Is | storage/segment.go:117-123 | Prefixes and index entries are big-endian. |
| Segments.RecordRoundTrip | storage/segment.go:126-135 | A record can be read back from its own bytes exactly when its payload is shorter than 2^32. |
| Segments.PositionRoundTrip | storage/segment.go:117-123 | An index entry gives back its position exactly when it is below 2^32. |
| Segments.LookupHit | storage/segment.go:162-181 | Every record of a segment is found again through the index, byte for byte. |
| Segments.RecoveryIsHistory | storage/segment.go:81-115 | Rebuilding from whole records regenerates the index, size and next offset the appends produced. |
| Segments.RecoveryExactly | storage/segment.go:96-111 | The rebuilt size is never below the file's, and equals it exactly when the file is whole records. |
| Segments.CrashRecovery | storage/segment.go:96-111 | After a crash at any byte of a record everything before it reads back; one phantom offset is counted and its read fails. |
| Segments.AppendAfterOpenExactly | storage/segment.go:81-146 | A payload appended to an opened segment reads back at its offset if and only if the opened file was whole records. |
| Segments.TornTailLosesNext | storage/segment.go:96-146 | A file with a torn tail after which the appended payload cannot be read. |
| Segments.TornTailReadsOther | storage/segment.go:96-181 | A file with a torn tail after which the appended payload's offset reads other bytes. |
| LogTheorems.AppendHoldsLog | storage/log.go:83-102 | Appending, rolling or not, puts the payload at the end at offset NextOffset; a roll opens a file that does not exist. |
| LogPacking.RollsExactly | storage/log.go:83-91 | After any run whose restarts keep the limit, the record after a closed segment would have made that segment larger than the limit, and a segment of more than one record is no larger; the limit is 4 MiB if none is given. |
| LogTheorems.ReadServes | storage/log.go:105-126 | Reading gives the payload assigned the offset, or fails outside the range the log holds. |
| LogTheorems.CompactHolds | storage/log.go:142-157 | Compaction keeps every payload of the segments it keeps. |
| LogTheorems.CompactFrees | storage/log.go:142-157 | Compaction keeps the last segments asked for, never fewer than one; afterwards the directory has neither file of a dropped segment, and the cold store has a blob under its key if and only if the segment was local and there was one before. |
| LogPacking.CompactExactly | storage/log.go:142-157 | Compaction keeps the last `keep` segments, at least one, and changes nothing if there are no more. |
| LogTheorems.FailedUploadStays | storage/segment.go:226-271 | When the upload of the first local segment fails after storing something and compaction drops the segment, its key stays in the cold store. |
| LogTheorems.CompactionLeavesBlob | storage/segment.go:261-271 | Two appends, a failing upload that leaves something and a compaction, after which the dropped segment's key is in the cold store. |
| LogTheorems.TierFromHolds | storage/tiering.go:22-33 | However many uploads fail, and whatever a failed one leaves behind, every payload stays readable. |
| LogTheorems.TiersUpToFailure | storage/tiering.go:17-34 | TierSegments tiers and counts exactly the local closed segments before the first failing upload and leaves the rest alone. |
| LogPacking.TieringExactly | storage/tiering.go:8-34 | After any run TierSegments fails and changes nothing unless tiering was enabled since the last restart; otherwise it tiers and counts the local closed segments up to the first failing upload. |
| LogTheorems.ReopenRecovers | storage/log.go:27-79 | Reopening the directory recovers exactly the segments that were not tiered, index and counters included. |
| LogTheorems.ReopenKeepsOldest | storage/log.go:55-79 | The oldest offset survives reopening exactly when nothing is tiered; the next offset always does. |
| LogTheorems.NothingDropped | storage/log.go:83-157 | Only compactions and restarts move the oldest offset: without them it is 0 after any run. |
| LogTheorems.TieredForgotten | storage/log.go:55-79 | If a segment is tiered, the oldest offset is readable before reopening and not after. |
| LogTheorems.RestartForgetsTiered | storage/tiering.go:17-34 | Two appends, a tiering whose upload succeeds and a restart, after which offset 0 is lost. |
| LogTheorems.LogIsSequence | storage/log.go:27-157 | After any run of appends, compactions, tierings and restarts, offsets count the appends and a read gives the payload of that number or fails. |
| LogCrash.CrashedAppend | storage/segment.go:81-146 | A process stops at any byte of an append and the directory is reopened: all earlier payloads read back, the record is there exactly when its last byte was written, and a part of it is counted at an offset that cannot be read. |
| LogCrash.CrashedRun | storage/log.go:27-102 | The same after any run, whether or not the append rolled. |
| LogCrash.CrashThenAppend | storage/log.go:83-102 | After such a crash and reopening, an appended payload reads back if and only if the record was written in whole or not at all, or the append rolls. |
| LogCrash.CrashedRunAppends | storage/log.go:27-111 | The same after any run. |
| LogTheorems.SegmentsContiguous | storage/log.go:93-102 | Segments stay contiguous with strictly increasing bases. |
| Storage.ColdStore.Put | storage/segment.go:238-240 | An upload stores the blob, or fails and leaves anything or nothing under its key. |
| Storage.Directory.RemoveFiles | storage/segment.go:266-270 | Both files of a base are gone and no other is touched. |
| Storage.Segment.Open | storage/segment.go:48-75 | The opened segment depends on the log file alone, not on the index file; both files exist afterwards. |
| Storage.Segment.ScanFile | storage/segment.go:92-112 | The loop computes the specified index, size and count. |
| Storage.Segment.RebuildIndex | storage/segment.go:81-115 | Index, size and next offset are those of the scan, and the index file is written anew. |
| Storage.Segment.AppendIndexEntry | storage/segment.go:117-123 | One eight-byte entry is added. |
| Storage.Segment.Append | storage/segment.go:126-146 | The new state and files are the specified ones and the offset is the old next offset. |
| Storage.Segment.Read | storage/segment.go:149-160 | The local files or the blob are looked up by the same rule. |
| Storage.Segment.ReadBytes | storage/segment.go:186-210 | The lookup, with every out-of-range read an error. |
| Storage.Segment.Remove | storage/segment.go:261-271 | A tiered segment's blob is deleted, a local segment's two files are. |
| Storage.Segment.TierOut | storage/segment.go:226-259 | The local files are deleted exactly when the upload succeeded. |
| Storage.Log.Open | storage/log.go:27-53 | The log is the directory's segments in ascending order, or one at 0. |
| Storage.Log.DiscoverSegments | storage/log.go:55-79 | The bases in ascending order. |
| Storage.Log.Append | storage/log.go:83-91 | The new state is that AppendHoldsLog and RollsExactly are about. |
| Storage.Log.Roll | storage/log.go:93-102 | A segment is opened at the next offset, over any file of that base, and becomes active. |
| Storage.Log.FindSegment | storage/log.go:114-126 | On ordered bases the binary search finds the covering segment. |
| Storage.Log.Read | storage/log.go:105-111 | The result is the specified one. |
| Storage.Log.Compact | storage/log.go:142-157 | The new state, the directory and the cold store are the specified ones. |
| Storage.Log.TierSegments | storage/tiering.go:17-34 | The new state, the directory, the cold store, the count and the success flag are the specified ones. |
| Batch.Encode | batch/batch.go:23-45 | The loop builds the specified body behind the marker. |
| Batch.TryDecode | batch/batch.go:50-84 | Plain, damaged or a batch, as specified. |
| Batch.ParseBody | batch/batch.go:65-83 | The loop parses the count and the messages. |
| Batch.ParseExactly | batch/batch.go:65-83 | The parser accepts exactly the encoded bodies, with anything after them, and gives back what was encoded. |
| Batch.DecodeExactly | batch/batch.go:50-84 | A blob is plain exactly when it lacks the marker, and decodes to some messages exactly when it has it and the rest unzips to their body, with anything after it; every other blob is damaged. |
| Batch.RoundTrip | batch/batch.go:21-84 | With lossless compression decoding undoes encoding exactly for fewer than 2^32 messages each shorter than 2^32 bytes. |
| Batch.TruncationRejected | batch/batch.go:65-79 | Every strict prefix of a body is rejected. |
| Batchers.Batcher.AddMessage | batch/batch.go:119-129 | The new state is the specified one and the returned batch is the one detached. |
| Batchers.Batcher.Linger | batch/batch.go:150-156 | The same for a tick of the linger loop. |
| Batchers.Batcher.FlushNow | batch/batch.go:175-184 | The same for a flush. |
| Batchers.BatchesAreMessages | batch/batch.go:114-184 | Over every interleaving the batches in order, then what is pending, are the messages added; no batch is empty or over the limit. |
| Batchers.LeavesExactly | batch/batch.go:117-184 | After any run an added message leaves only with a full batch, a tick takes what waits only when the oldest has waited long enough, and a flush always does. |
| Batchers.LingerBound | batch/batch.go:149-156 | After a tick the oldest pending message was added less than the linger time ago. |
| Batchers.FlushedDelivers | batch/batch.go:164-184 | After a flush, decoding the blobs in order gives exactly the messages added. |
| ConsumerGroup.Coordinator.constructor | group/coordinator.go:30-43 | An empty group, with the default timeout if none is given. |
| ConsumerGroup.Coordinator.JoinGroup | group/coordinator.go:46-51 | The new state is the specified one. |
| ConsumerGroup.Coordinator.Beat | group/coordinator.go:56-62 | Only a known member's heartbeat is recorded. |
| ConsumerGroup.Coordinator.LeaveGroup | group/coordinator.go:66-71 | The new state is the specified one. |
| ConsumerGroup.Coordinator.RebalanceLocked | group/coordinator.go:100-119 | The assignment is the one the set of live members determines. |
| ConsumerGroup.Coordinator.DealAll | group/coordinator.go:107-117 | The loops deal the partitions to the sorted members in turn. |
| ConsumerGroup.Coordinator.Expire | group/coordinator.go:131-143 | Expired members are dropped, and only then is the group rebalanced. |
| ConsumerGroup.Coordinator.DropExpired | group/coordinator.go:134-139 | The loop over the map, in any order, drops exactly the expired members. |
| ConsumerGroup.ShareSize | group/coordinator.go:111-117 | Of n partitions dealt to c members, member j gets n / c, and one more if j is below n % c. |
| ConsumerGroup.AssignFair | group/coordinator.go:97-119 | Exactly the live members are assigned to, each partition has exactly one owner, and shares are the average rounded down or up. |
| ConsumerGroup.AssignedByLiveSet | group/coordinator.go:97-146 | After any run the assignment is a function of the live set alone. |
| ConsumerGroup.AlwaysFair | group/coordinator.go:46-146 | After any run the assignment is fair in that sense. |
| ConsumerGroup.StringLessIs | group/coordinator.go:105 | Ids are ordered by the first place where they differ, a prefix first. |
| ConsumerGroup.OwnsExactly | group/coordinator.go:100-119 | After any run a live member owns exactly the partitions whose number modulo the number of members is how many live ids come before it. |
| ConsumerGroup.LiveExactly | group/coordinator.go:46-146 | The live members are exactly those that joined and have neither left nor missed their heartbeats since. |
| Replication.ReplicatedPartition.ApplyMessage | replication/partition.go:61-85 | One turn of the apply loop: the new state is the specified one. |
| Replication.PlainKeptExactly | replication/partition.go:71-74 | A payload is stored as it is exactly when it does not look like a batch of anything but itself. |
| Replication.UnpackedExactly | replication/partition.go:71-74 | A payload that looks like a batch is stored as that batch's messages. |
| Replication.EmptyBatchVanishes | replication/partition.go:71-74 | A message whose bytes are an encoded empty batch is stored nowhere. |
| Replication.ReplicaHolds | replication/partition.go:47-85 | A replica's log is the messages of the payloads it applied, from offset 0 on. |
| Replication.SameOffsetSameBytes | replication/partition.go:47-51 | Two replicas, at any moments of any run and however far each has read its channel, hold the same bytes at every offset both have. |
| Replication.WaitAppliedExactly | replication/partition.go:98-112 | Waiting for a payload's index ends exactly when the replica has taken that payload off the channel. |
| Replication.AckedWriteServed | producer/producer.go:50-57 | A write whose index was applied with the term Start returned is served by every replica that applies the index, at the same offsets. |
| Replication.AckedExactly | producer/producer.go:35-57 | The entry applied at the acknowledged index is the write exactly when it has the term Start returned. |
| Replication.AckedInTerm | replication/partition.go:84-112 | If the proposing replica's term is still Start's when the wait ends, the write is served by it and by every replica that applies the index, at the same offsets. |
| AckLoss.AckedWriteLost | producer/producer.go:35-57 | A run of three peers in which a write is acknowledged and another is stored in its place. |
| DocReplication.ReplicatedDocStore.ApplyMessage | docstore/replicated.go:44-73 | One turn of the apply loop: the new state is the specified one. |
| DocReplication.WalHolds | docstore/replicated.go:54-67 | The write-ahead log holds every payload taken, rejected and undecodable ones included. |
| DocReplication.RunDocIs | docstore/replicated.go:44-73 | The store goes through exactly the decodable transactions, stamped with their Raft indexes. |
| DocReplication.ReplicasAnswerAlike | docstore/replicated.go:44-73 | Replicas with the same lastAppliedRaftIndex give the next transaction the same verdict, whatever garbage each collected, and answer fresh reads alike unless a cut-short transaction is pending. |
| DocReplication.ReplicasListAlike | docstore/mvcc_store.go:161-204 | Queries by the indexed field, for values other than nil's text, and scans through snapshots of replicas with the same lastAppliedRaftIndex return the same ids, whatever each replica does between their lock sections. |
| DocReplication.CollectedReplicaParts | docstore/replicated.go:104-111 | They part if a transaction was cut short and one collected past the commit index. |

## Left out

- Raft restarts and raft/persister.go: no code saves or reloads a peer's state, so a peer never restarts in the model.
- Real time: timers and random timeouts only decide when a step fires, so any step may fire at any time and nothing is proved about how soon a leader is elected.
- raft/network.go, raft/tcp_transport.go and raft/transport.go: sockets, delays and losses are the network that delivers anything sent, at any time, any number of times, or never.
- Membership: the list of peers is fixed and has no duplicates.
- Integer width: Go's 64-bit integers are unbounded here; 32-bit conversions and counters are written out.
- gzip, JSON and `%v`: a lossless pair of functions, a partial decoding function and an arbitrary printing function; Batch.RoundTrip needs nothing else of gzip.
- Storage limits: LogTheorems.LogIsSequence takes payloads shorter than 2^32 bytes and segments of at most 2^32; Segments.RecordRoundTrip and Segments.PositionRoundTrip say why.
- Operating system errors other than a failing upload: writing, closing, removing and listing local files succeed, and a directory and a cold store belong to one log.
- LogPacking.RollsExactly: needs that restarts keep the size limit, since a segment keeps what an earlier, larger limit let in.
- Storage.Log.FindSegment: requires ordered bases, which LogTheorems.SegsOrdered shows of every reachable log.
- Storage.Log.Read: requires ordered bases, for the same reason.
- MVCCStore.MVCC.Get: requires sorted chains, which MVCCTheorems.RunStamped shows of every run.
- MVCCQuery.QueryByIndex: takes the stores its re-checks see as arguments and requires that they read as the first one does at the snapshot; MVCCQuery.QueryAgrees shows this of every run and composes the two.
- MVCCQuery.Scan: requires the same of its re-checks; MVCCQuery.ScanAgrees shows it of every run.
- Storage.Segment.Read: the order of the three file reads within one lookup is not modelled, only their result.
- MVCCStore.MVCC.GCBefore: the chains are pruned in a local map and assigned once, under the lock.
- Replication.SameOffsetSameBytes: a replica starts with an empty directory; a replica opened over an old one would append everything again, since Raft's state is not saved.
- DocReplication.ReplicasAnswerAlike: reads need that no cut-short transaction is pending; CollectedReplicaParts shows why.
- DocReplication.ReplicasListAlike: nil's text is excluded, because the stray candidates MVCCQuery.QueryAgrees describes depend on what each replica's index had when it was read.
- RaftPeer.Raft.AppendMissing: requires entries whose Index fields continue PrevLogIndex; RaftTheorems.RequestsIndexed shows that no other request is ever sent.
- RaftPeer.Raft.MergeEntries: requires the same of the entries, for the same reason.
- RaftPeer.Raft.AdoptEntries: requires the same of the entries, for the same reason.
- RaftPeer.Raft.AppendEntries: requires the same of the entries, for the same reason.
- LogCrash.CrashedAppend: the process stops while one record is written; data a disk loses after a write returned is not modelled.
- The rebuild of the document store from its log that docs/design_document_store.md:33-35 describes: there is no such code.
- batch/batch.go: what happens between detaching a batch and writing it, when two goroutines may write in either order.
- schema, streaming, storage/partition.go: short checks and routing that would only add easy members.
- api, mongowire, security, metrics, dashboard, benchmarks, cmd, storage/minio_coldstore.go: protocol framing, cryptography, input and output.
