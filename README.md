# Evolving identity (EID) membership: a Dafny model

An EID tracks a group's membership as a sequence of *evolvements* (add, remove, update).
Clients author evolvements and apply them to their state. A transcript keeps a trusted
state and a log of the evolvements applied since then. This project models two parts of
the repository:

* **The interface defaults.** `batch_evolve` of the client interface and `verify_member`
  of the state interface are written over the implementation's abstract `evolve`,
  `apply` and `get_members`. The MLS state interface adds `verify_client` and `apply_log`.
  Abstract methods are function-valued fields of a generic class or parameters of a
  generic function. A state-changing method is a function `(S, E) -> Step<S>` that gives
  the state it leaves and what it returns. Module `Replay` defines, once, what applying a
  list of evolvements in order with early exit means (`Run`). Every batch and log
  operation is proved against it.
* **The no-crypto "dummy" EID.** A member is a byte-string public key. An evolvement
  carries a full member-list snapshot. The state replaces its list with that snapshot. The
  client builds the next snapshot by editing a copy of the current list. The transcript is
  a trusted state beside an append-only log. The key store is a byte-keyed map.
* **The MLS protocol layer.** The openmls calls (parse, verify, merge, list members) are
  uninterpreted functions that either succeed or fail. The client state's pipeline is
  parse, then verify, then dispatch on message kind, then merge, and each failing stage
  maps to a fixed error. The transcript's bookkeeping keeps `trusted_state` fixed,
  advances `current_state`, and logs an evolvement only after it applies.

The central invariant is `MlsTranscript.Transcript.Valid()`: `current_state` is the
replay of `log` over `trusted_state`. It rests on one assumption about the abstract
state: a failing `apply` leaves the state unchanged (`Replay.FailureAtomic`). The
transcript requires this when it is created. `MlsClientState.ApplyIsFailureAtomic`
shows that the model's client-state `apply` meets it under the model's abstraction of
openmls, in which a failing parse, verification or merge returns no new group. It does
not show that the real client state meets it. openmls changes the group in place, and
nothing in the repository says a failing merge leaves the group untouched.

Where the repository's tests and interface documentation expect more than the code does,
the model follows the code:

* `eid/tests/test_eid.rs:85-87` expects a second `add` of the same member to fail with
  `AddMemberError`. The dummy `add` appends the member again and returns Ok.
* `eid/tests/test_eid.rs:136-143` expects `remove` of an absent member to fail with
  `InvalidMemberError`. The dummy `remove` returns the list unchanged and Ok.
* `traits/src/client.rs:166-167` says an invited member must cross-sign to be part of the
  EID. No `get_members` or `verify_*` in the repository filters on cross-signing, and neither does the
  model.
* Dummy members compare by public key alone (`eid_dummy/src/eid_dummy_member.rs:14-18`).
  After `update`, the member with the bumped key is a different member from the old one.
* The dummy `is_valid_successor` accepts every pair of evolvements
  (`eid_dummy/src/eid_dummy_evolvement.rs:19-21`). The interface's name promises an
  ordering check that this code does not make.

The repository's files mix several API drafts that do not type-check against each other. The
model uses one consistent set of signatures:

* State-level `get_members` and `verify_*` return `Result`, as the dummy and MLS states
  do. The generic `verify_member` of `traits/src/state.rs` keeps its infallible list.
* The dummy `create_eid` takes its initial member as an argument, as the client interface
  declares. The member type has no `Default`.
* The dummy `add`, `remove` and `update` return the `Add`, `Remove` and `Update` variants
  respectively. The source builds a struct literal, which does not match the enum.
* The MLS transcript's `get_members` returns its state's `Result`.
* `EidError` is the declared enum plus the four payload-free variants that the MLS client
  state uses.

## Model

| member | source | states |
|---|---|---|
| `Replay.Run` | traits/src/client.rs:160-163 | an empty list succeeds and leaves the state as given; a failure of the first evolvement is returned at once with the state it left; a failing run has at least one evolvement |
| `Replay.Accepted` | traits/src/client.rs:160-163 | the number of evolvements applied before the run stops is at most the list length, and equals it exactly when the run returns Ok |
| `Replay.RunAppend` | traits/src/client.rs:160-163 | running `xs ++ ys` is running `xs`, then `ys` from where `xs` left off if it succeeded; a failure in `xs` ends the run with that failure |
| `Replay.RunSnoc` | traits/src/client.rs:160-161 | after a successful prefix, the next evolvement is applied through `evolve` to the state the prefix produced |
| `Replay.RunStopsAt` | traits/src/client.rs:160-162 | if the prefix before `k` succeeds and entry `k` fails, the run returns exactly that failure and state: later entries are not applied, earlier ones stay applied |
| `Replay.RunFailsAtAccepted` | traits/src/client.rs:160-162 | a failing run fails at its first failing entry, after every earlier entry succeeded; with failure-atomic steps the state left is the successful prefix's |
| `EidClientTrait.Client.Evolve` | traits/src/client.rs:139-143 | the abstract `evolve`: the new state and result are the implementation's |
| `EidClientTrait.Client.BatchEvolve` | traits/src/client.rs:155-164 | new state and result are the in-order run of `evolve` over the list with early exit; an empty list returns Ok and changes nothing |
| `EidStateTrait.VerifyMember` | traits/src/state.rs:41-43 | true exactly when `get_members()` has an element equal to the member under `PartialEq`; false on an empty member list |
| `EidStateTrait.Contains` | traits/src/state.rs:42 | `contains` is true exactly when some element is equal to the member under the member type's `PartialEq` |
| `EidStateTrait.VerifyMemberRespectsEquality` | traits/src/state.rs:41-47 | for a transitive `PartialEq`, members it equates in both directions get the same answer, and states with the same member list give the same answers |
| `EidStateTrait.VerifyMemberStructural` | traits/src/state.rs:41-43 | with structural equality as `PartialEq`, `verify_member` is exactly membership in the member list |
| `DummyMember.New` | eid_dummy/src/eid_dummy_member.rs:22-24 | the credential becomes the member's key unchanged |
| `DummyMember.GetPk` | eid_dummy/src/eid_dummy_member.rs:9-11 | rebuilding a member from its key gives the same member |
| `DummyMember.Eq` | eid_dummy/src/eid_dummy_member.rs:14-18 | two members are equal under `PartialEq` exactly when they are the same value, that is when their keys are equal |
| `DummyMember.GetPkOfNew` | eid_dummy/src/eid_dummy_member.rs:9-11 | `get_pk(new(c)) == c` |
| `DummyMember.EqIsEquivalence` | eid_dummy/src/eid_dummy_member.rs:3-18 | key equality is reflexive, symmetric and transitive |
| `DummyMember.NewInjective` | eid_dummy/src/eid_dummy_member.rs:14-24 | `new(a) == new(b)` exactly when `a == b` |
| `DummyEvolvement.Default` | eid_dummy/src/eid_dummy_evolvement.rs:12-16 | the default evolvement is `Add` with an empty member list |
| `DummyEvolvement.IsValidSuccessor` | eid_dummy/src/eid_dummy_evolvement.rs:19-21 | every evolvement is a valid successor of every other |
| `DummyState.ApplyStep` | eid_dummy/src/eid_dummy_state.rs:25-38 | `apply` never fails, and for every variant the resulting member list is the evolvement's snapshot |
| `DummyState.ApplyIgnoresPriorState` | eid_dummy/src/eid_dummy_state.rs:30-37 | the result of `apply` does not depend on the prior members; applying the same evolvement twice equals applying it once |
| `DummyState.LastEqualsReplay` | eid_dummy/src/eid_dummy_state.rs:17-24 | applying only the last entry of a non-empty log has the same effect as applying every entry in order |
| `DummyState.State.Default` | eid_dummy/src/eid_dummy_state.rs:8-11 | the default state has no members |
| `DummyState.State.FromMembers` | eid_dummy/src/eid_dummy_client.rs:36 | the struct literal holds exactly the given members |
| `DummyState.State.Clone` | eid_dummy/src/eid_dummy_state.rs:8-11 | a clone is a fresh state with the same members |
| `DummyState.State.Apply` | eid_dummy/src/eid_dummy_state.rs:25-38 | for every variant the members become the evolvement's list, and the result is Ok |
| `DummyState.State.ApplyLog` | eid_dummy/src/eid_dummy_state.rs:17-24 | for a non-empty log the members become the last entry's list, which equals the in-order replay of the whole log; Ok |
| `DummyState.State.VerifyMember` | eid_dummy/src/eid_dummy_state.rs:39-41 | Ok(true) for every member, present or not |
| `DummyState.State.GetMembers` | eid_dummy/src/eid_dummy_state.rs:42-44 | Ok with exactly the current member list; the state is not changed |
| `DummyKeystore.Keystore.constructor` | eid_dummy/src/eid_dummy_keystore.rs:7-10 | a new store is empty |
| `DummyKeystore.Keystore.Store` | eid_dummy/src/eid_dummy_keystore.rs:15-28 | maps the key to the serialised value, replacing any earlier one; on a serialisation failure returns `SerializationError` and leaves the map unchanged; no other key's reading changes; a value whose codec round-trips reads back as itself |
| `DummyKeystore.Keystore.Read` | eid_dummy/src/eid_dummy_keystore.rs:30-43 | nothing for an absent key; otherwise the deserialised stored value, or nothing when deserialisation fails; the map is not changed |
| `DummyKeystore.Keystore.Delete` | eid_dummy/src/eid_dummy_keystore.rs:45-50 | removes the key, present or not, and returns Ok; every other entry is unchanged |
| `DummyTranscript.Transcript.constructor` | eid_dummy/src/eid_dummy_transcript.rs:14-16 | stores the trusted state and the log exactly as given |
| `DummyTranscript.Transcript.AddEvolvement` | eid_dummy/src/eid_dummy_transcript.rs:18-20 | appends any evolvement at the end of the log, whose length grows by one; nothing else changes |
| `DummyTranscript.Transcript.TrustedState` | eid_dummy/src/eid_dummy_transcript.rs:22-24 | a fresh copy of the trusted state's members |
| `DummyTranscript.Transcript.Log` | eid_dummy/src/eid_dummy_transcript.rs:26-28 | a copy of the log |
| `DummyTranscript.NewThenAddAll` | eid_dummy/src/eid_dummy_transcript.rs:14-20 | `new(s, l)` followed by `add_evolvement` of each of `e1..en` in turn leaves the log `l ++ [e1..en]` and the trusted state untouched |
| `DummyClient.FirstMatch` | eid_dummy/src/eid_dummy_client.rs:50 | no position exactly when no member has the key; otherwise a position holding the key with no earlier member holding it |
| `DummyClient.SwapRemove` | eid_dummy/src/eid_dummy_client.rs:51 | the length drops by one, the old last element takes position `i`, all other positions are unchanged, and as a multiset one occurrence of `xs[i]` is gone |
| `DummyClient.Retain` | eid_dummy/src/eid_dummy_client.rs:61 | the filtered list is never longer than the input |
| `DummyClient.RetainCounts` | eid_dummy/src/eid_dummy_client.rs:61 | every member with the key is dropped and every other member keeps its number of occurrences; a member is in the result exactly when it was in the input and has another key |
| `DummyClient.RetainAppend` | eid_dummy/src/eid_dummy_client.rs:61 | filtering keeps order: filtering a concatenation is concatenating the filtered parts |
| `DummyClient.BumpKey` | eid_dummy/src/eid_dummy_client.rs:63-64 | same length, first byte one higher, other bytes equal; so the new key differs from the old |
| `DummyClient.AddThenRemove` | eid_dummy/src/eid_dummy_client.rs:39-58 | removing a member that `add` appended to a list without it finds it at the end and gives the original list back |
| `DummyClient.Client.CreateEid` | eid_dummy/src/eid_dummy_client.rs:34-38 | the new client's state has exactly one member, the initial one |
| `DummyClient.Client.Add` | eid_dummy/src/eid_dummy_client.rs:39-46 | Ok with an `Add` holding the current list with the member appended at the end; the member's count grows by one, even when already present |
| `DummyClient.Client.Remove` | eid_dummy/src/eid_dummy_client.rs:47-58 | Ok with a `Remove`; with no matching key the list is unchanged; otherwise the first match is swap-removed and the result is the list minus one occurrence of the member |
| `DummyClient.Client.Update` | eid_dummy/src/eid_dummy_client.rs:59-72 | Ok with an `Update` holding the members without the own key, in order, followed by one member with the bumped key; the old key is absent from the result and every other member is kept |
| `MlsStateTrait.VerifyClient` | eid_mls/src/state/state_trait.rs:9-12 | an error from `get_members` propagates; otherwise Ok(true) exactly when the list contains an equal member |
| `MlsStateTrait.MlsState.Apply` | traits/src/state.rs:27-31 | the abstract `apply`: the new state and result are the implementation's |
| `MlsStateTrait.MlsState.ApplyLog` | eid_mls/src/state/state_trait.rs:14-22 | new state and result are the in-order run of `apply` over the log, stopping at the first error with earlier entries applied; an empty log returns Ok and changes nothing |
| `MlsClientState.ProcessStep` | eid_mls/src/state/client_state.rs:23-34 | succeeds exactly when the message is a staged commit whose merge succeeds, and then the group is the merged one; on failure the group is unchanged |
| `MlsClientState.ApplyStep` | eid_mls/src/state/client_state.rs:38-50 | succeeds exactly when parsing and verifying succeed and the verified message is processed successfully; on failure the group is unchanged |
| `MlsClientState.ApplyPipeline` | eid_mls/src/state/client_state.rs:23-50 | a parse failure gives `ParseMessageError`, then a verification failure `UnverifiedMessageError`, application and proposal messages `InvalidMessageError`, a merge failure `ApplyCommitError`, each with the group untouched; Ok only when all succeed, with the merged group |
| `MlsClientState.ApplyIsFailureAtomic` | eid_mls/src/state/client_state.rs:38-50 | under the model's abstraction of openmls, where a failing parse, verification or merge returns no group, a failing `apply` leaves the group unchanged |
| `MlsClientState.ClientState.ApplyProcessedMessage` | eid_mls/src/state/client_state.rs:23-34 | application and proposal messages fail with `InvalidMessageError` and the group is untouched; a staged commit is merged, a merge failure is `ApplyCommitError` |
| `MlsClientState.ClientState.Apply` | eid_mls/src/state/client_state.rs:38-50 | parse, verify, then process, with the stage-to-error mapping; the group changes only on success |
| `MlsClientState.ClientState.GetMembers` | eid_mls/src/state/client_state.rs:52-59 | Ok with one member per group key package, in the same order and count |
| `MlsClientState.ClientState.ApplyLog` | eid_mls/src/state/client_state.rs:61-66 | new group and result are the in-order run of `apply` over the log, stopping at the first error |
| `MlsClientState.ClientState.VerifyClient` | eid_mls/src/state/client_state.rs:68-70 | Ok(true) exactly when the group lists the member's key package |
| `MlsTranscript.Transcript.Init` | eid_mls/src/eid_mls_transcript.rs:30-34 | the current state starts as the trusted state with an empty log, which satisfies the replay invariant |
| `MlsTranscript.Transcript.New` | eid_mls/src/eid_mls_transcript.rs:25-37 | fails with the copy's error if copying the trusted state fails, else with the first error of replaying the log; on success the log is the given one and the current state is the replay of it over the trusted state |
| `MlsTranscript.Transcript.Evolve` | eid_mls/src/eid_mls_transcript.rs:39-47 | the replay invariant is kept; the evolvement is logged only when `apply` succeeds; on failure the log and current state are unchanged and the error propagates; the trusted state is never modified |
| `MlsTranscript.Transcript.BatchEvolve` | eid_mls/src/eid_mls_transcript.rs:35 | keeps the invariant; the result is the in-order run over the list, and exactly the entries applied before the first failure are appended to the log |
| `MlsTranscript.Transcript.Log` | eid_mls/src/eid_mls_transcript.rs:49-51 | a copy of the log |
| `MlsTranscript.Transcript.GetMembers` | eid_mls/src/eid_mls_transcript.rs:53-55 | the members of the current state, which are the members of the replay of the log over the trusted state |
| `MlsTranscript.Transcript.GetTrustedState` | eid_mls/src/eid_mls_transcript.rs:56-58 | Ok with the trusted state exactly when its copy succeeds, else the copy's error |
| `MlsTranscript.Convergence` | eid_mls/src/eid_mls_transcript.rs:25-55 | a client state and a transcript started from the same group and fed the same log end with the same group and the same member list |

## Left out

- Cryptographic verification, cross-signing, merging a client's own pending commit and rejecting out-of-order evolvements: the modelled code implements none of them.
- The openmls wrappers in `eid_mls/src/eid_mls_client.rs`, `eid_mls/src/eid_mls_key_creation.rs` and `eid_mls/src/eid_mls_group_creation.rs`: these are calls into a library that is not part of this model.
- The unfinished drafts. `eid_mls/src/state/transcript_state.rs` is entirely `todo!()`. The MLS transcript is therefore generic in its state type. `eid_mls/src/eid_mls_state.rs` is an earlier copy of the client state and does not compile.
- `EidMlsMember::eq` is `todo!()`. The model compares MLS members by their key package.
- `EidMlsEvolvement`'s `clone` is `todo!()` and its `is_valid_successor` returns unit. Its `commit` field is never read by `apply`, so the model's MLS evolvement holds only the message.
- The client interface's other methods (`create_from_invitation`, `cross_sign_membership`, `export_transcript_state`, `generate_member` and the rest) have no behaviour at that level. The same holds for the provider, backend, member, evolvement and transcript interface declarations.
- The transcript interface in `traits/src/transcript.rs` declares no `batch_evolve`, although `new` calls one. `MlsTranscript.Transcript.BatchEvolve` models it like the client interface's default, as repeated `evolve` that stops at the first error.
- The backends are dropped. The dummy backend is an empty struct that every dummy call ignores. The MLS backend appears only through the uninterpreted openmls functions.
- The dummy client's `pk()` reads a key pair from the key store and serialises it with serde_json. The model takes the client's own key as a parameter of `update` instead.
- Key store values go through an abstract partial codec instead of the value types' own serialisation. The store has no `RwLock`, no locking and no concurrency.
- `EidError`'s `Display` relies on Debug string escaping. Only the variant and its payload are kept.
- Tests, examples and the test helpers target other API drafts. They expect behaviour the dummy code does not have, such as duplicate-add and absent-remove errors.
- MlsTranscript.Transcript.New: it requires a failing `apply` to leave the state unchanged. The real transcript state type does not exist yet, so this cannot be checked against it.
- MlsTranscript.Transcript.New: it assumes `clone_serde` either fails or returns a copy equal to the original.
- MlsClientState.ClientState.Apply: parsing, verifying and a failing merge are modelled as leaving the group unchanged. `merge_staged_commit` works on `&mut self.group` (`eid_mls/src/state/client_state.rs:29-31`), and openmls may update internal group data during any of these calls, including a merge that fails. The model does not capture that. Failure atomicity, and with it the transcript's replay invariant for this state, is therefore proved only for the abstraction.
- DummyClient.Client.Update: it requires a non-empty own key whose first byte is below 255. Debug builds panic on indexing an empty key and on `u8` overflow. Release builds would wrap 255 to 0 instead, which is not modelled.
- DummyState.State.ApplyLog: it requires a non-empty log, because `last().unwrap()` panics on an empty one.
- DummyTranscript.Transcript.constructor: the trusted state is held by reference rather than owned. No transcript method changes it, but another holder of the same object could.
