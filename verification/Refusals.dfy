/**
 * Which calls the registry refuses, and what it leaves of those it takes, on any target
 * (contracts/src/WebAuthnP256PublicKeyRegistry.sol:458-660).
 */
module Refusals {
  import opened Basics
  import opened Replay
  import opened Archives


  /** The registry takes this member: its file agrees, or its hints fit a new one. */
  predicate Takes(t: Registry, m: Member) {
    if m.key in t.entries then t.entries[m.key].attestation == m.attestation && t.entries[m.key].credential == m.credential
    else |m.hints.attachment| <= 32 && |m.hints.transports| <= 255
  }

  lemma {:induction false} AllAcceptedExactly(t: Registry, entries: map<Key, Entry>, members: seq<Member>)
    requires DistinctKeys(members) && forall m | m in members :: (m.key in entries <==> m.key in t.entries)
    requires forall m | m in members && m.key in entries :: entries[m.key] == t.entries[m.key]
    ensures AllAccepted(entries, members) <==> forall m | m in members :: Takes(t, m)
    decreases |members|
  {
    if members != [] {
      var next := Resolve(entries, members[0]);
      assert members == [members[0]] + members[1..];
      forall m | m in members[1..] ensures m.key != members[0].key {
        var i :| 0 <= i < |members[1..]| && members[1..][i] == m;
        assert members[i + 1] == m;
      }
      AllAcceptedExactly(t, next, members[1..]);
      assert members[0] in members && (Accepts(entries, members[0]) <==> Takes(t, members[0]));
      assert forall m :: m in members <==> m == members[0] || m in members[1..];
    }
  }

  /** A register goes through exactly when it is well formed and proven, its group is new, its keys are
      distinct and the registry takes each of its members; one of a group that is there is a
      duplicate, whatever else is wrong with it. */
  lemma {:induction false} RegisterAnswersExactly(t: Registry, p: Payload)
    requires p.Register?
    ensures Call(t, p).Ok? <==>
            p.formed && p.proven && p.group !in t.units && DistinctMembers(p.group, p.members) && forall m | m in p.members :: Takes(t, m)
    ensures Call(t, p).Duplicate? <==> p.formed && p.group in t.units
    ensures !Call(t, p).GroupNotFound?
  {
    if DistinctMembers(p.group, p.members) { AllAcceptedExactly(t, t.entries, p.members); }
  }

  /** A refer goes through exactly when it is well formed, proven and signed for its group, the group
      is there, the registry takes its member, which is not the group's own key, and the reference
      is new. */
  lemma {:induction false} ReferAnswersExactly(t: Registry, p: Payload)
    requires p.Refer? && (p.group in t.units ==> t.units[p.group].Register?)
    ensures Call(t, p).GroupNotFound? <==> p.formed && p.group !in t.units
    ensures Call(t, p).Duplicate? <==>
            p.formed && p.group in t.units && p.member.key != p.group && Takes(t, p.member) && (p.group, p.member.key) in t.references
    ensures Call(t, p).Ok? <==>
            && p.formed && p.proven && p.group in t.units && p.signedFor == t.units[p.group].rpId
            && p.member.key != p.group && Takes(t, p.member) && (p.group, p.member.key) !in t.references
  {}

  /** What a write that goes through leaves: the group or reference, a file for each new key with what
      the member brought, and everything else as it was. */
  lemma {:induction false} WriteLeavesExactly(t: Registry, p: Payload, k: Key)
    requires p.Register? ==> DistinctKeys(p.members)
    ensures var v := Write(t, p); var members := if p.Register? then p.members else [p.member];
            && v.units == (if p.Register? then t.units[p.group := p] else t.units)
            && v.references == (if p.Register? then t.references else t.references[(p.group, p.member.key) := p.metadata])
            && (k in v.entries <==> k in t.entries || exists m :: m in members && m.key == k)
            && (k in t.entries ==> v.entries[k] == t.entries[k])
            && (k !in t.entries ==> forall m | m in members && m.key == k :: v.entries[k] == Entry(m.attestation, m.credential, m.hints))
  {
    if p.Register? { ResolveAllExactly(t.entries, p.members, k); }
  }

  lemma {:induction false} ResolveAllExactly(entries: map<Key, Entry>, members: seq<Member>, k: Key)
    requires DistinctKeys(members)
    ensures var v := ResolveAll(entries, members);
            && (k in v <==> k in entries || exists m :: m in members && m.key == k)
            && (k in entries ==> v[k] == entries[k])
            && (k !in entries ==> forall m | m in members && m.key == k :: v[k] == Entry(m.attestation, m.credential, m.hints))
    decreases |members|
  {
    if members != [] {
      assert members == [members[0]] + members[1..];
      forall m | m in members[1..] ensures m.key != members[0].key {
        var i :| 0 <= i < |members[1..]| && members[1..][i] == m;
        assert members[i + 1] == m;
      }
      ResolveAllExactly(Resolve(entries, members[0]), members[1..], k);
    }
  }
}
