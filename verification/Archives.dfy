/**
 * Archives: the writes of one deployment, and what replaying them does to a target that agrees
 * with it (contracts/src/WebAuthnP256PublicKeyRegistry.sol:458-660).
 */
module Archives {
  import opened Basics
  import opened Replay

  /** What one deployment knows: the file of every key, the payload of every group, the metadata
      of every reference. */
  datatype Truth = Truth(files: map<Key, (string, string)>, units: map<Key, Payload>, references: map<(Key, Key), string>)

  predicate KnownFile(truth: Truth, m: Member) {
    m.key in truth.files && truth.files[m.key] == (m.attestation, m.credential)
  }

  predicate KnownGroup(truth: Truth, group: Key) {
    group in truth.units && truth.units[group].Register? && truth.units[group].group == group
  }

  /** The row is one of that deployment's writes. */
  predicate Consistent(p: Payload, truth: Truth) {
    && p.formed && p.proven && KnownGroup(truth, p.group)
    && match p
       case Register(_, _, group, members, _, _) =>
         && truth.units[group] == p && DistinctMembers(group, members)
         && forall i | 0 <= i < |members| :: KnownFile(truth, members[i])
       case Refer(group, metadata, member, signedFor, _, _) =>
         && member.key != group && KnownFile(truth, member) && signedFor == truth.units[group].rpId
         && (group, member.key) in truth.references && truth.references[(group, member.key)] == metadata
  }

  predicate ConsistentRows(rows: seq<Row>, truth: Truth) {
    forall i | 0 <= i < |rows| :: Consistent(rows[i].payload, truth)
  }

  predicate EntriesAgree(entries: map<Key, Entry>, truth: Truth) {
    forall k | k in entries :: k in truth.files && truth.files[k] == (entries[k].attestation, entries[k].credential)
  }

  /** The target holds nothing that contradicts that deployment. */
  predicate Agrees(t: Registry, truth: Truth) {
    && EntriesAgree(t.entries, truth)
    && (forall g | g in t.units :: KnownGroup(truth, g) && t.units[g] == truth.units[g])
    && (forall link | link in t.references :: link in truth.references && t.references[link] == truth.references[link])
  }

  function KeysOf(members: seq<Member>): set<Key> { set m | m in members :: m.key }

  lemma {:induction false} KeysOfCons(members: seq<Member>)
    requires members != []
    ensures KeysOf(members) == {members[0].key} + KeysOf(members[1..])
  {
    assert members == [members[0]] + members[1..];
    forall k ensures k in KeysOf(members) <==> k in {members[0].key} + KeysOf(members[1..]) {}
  }

  /** Hints that are about to be stored fit: those of members whose key is not among `keys`. */
  predicate RowFits(p: Payload, keys: set<Key>) {
    match p
    case Register(_, _, _, members, _, _) => forall i | 0 <= i < |members| :: members[i].key in keys || Fits(members[i].hints)
    case Refer(_, _, member, _, _, _) => member.key in keys || Fits(member.hints)
  }

  predicate DistinctKeys(members: seq<Member>) {
    forall i, j | 0 <= i < j < |members| :: members[i].key != members[j].key
  }

  lemma {:induction false} MembersResolve(entries: map<Key, Entry>, members: seq<Member>, truth: Truth)
    requires EntriesAgree(entries, truth) && forall i | 0 <= i < |members| :: KnownFile(truth, members[i])
    ensures EntriesAgree(ResolveAll(entries, members), truth)
    ensures ResolveAll(entries, members).Keys == entries.Keys + KeysOf(members)
    decreases |members|
  {
    if members == [] {
      assert KeysOf(members) == {};
    } else {
      assert KnownFile(truth, members[0]);
      MembersResolve(Resolve(entries, members[0]), members[1..], truth);
      KeysOfCons(members);
    }
  }

  /** Members of one deployment are accepted exactly when the hints of the new ones fit. */
  lemma {:induction false} MembersAccepted(entries: map<Key, Entry>, members: seq<Member>, truth: Truth)
    requires EntriesAgree(entries, truth) && DistinctKeys(members)
    requires forall i | 0 <= i < |members| :: KnownFile(truth, members[i])
    ensures AllAccepted(entries, members) <==>
            forall i | 0 <= i < |members| :: members[i].key in entries || Fits(members[i].hints)
    decreases |members|
  {
    if members != [] {
      assert KnownFile(truth, members[0]);
      var next, rest := Resolve(entries, members[0]), members[1..];
      assert forall i | 0 <= i < |rest| :: rest[i] == members[i + 1] && rest[i].key != members[0].key;
      MembersAccepted(next, rest, truth);
      assert forall i | 0 <= i < |rest| :: rest[i].key in next <==> rest[i].key in entries;
      assert forall i | 0 < i < |members| :: members[i] == rest[i - 1];
    }
  }

  /** On an agreeing target a register of the archive is refused exactly when it would have to
      store hints that do not fit. */
  lemma {:induction false} RegisterOnAgreeing(t: Registry, p: Payload, truth: Truth)
    requires Agrees(t, truth) && Consistent(p, truth) && p.Register?
    ensures Call(t, p) == if p.group in t.units then Duplicate else if RowFits(p, t.entries.Keys) then Ok else OtherRevert
    ensures Agrees(Sent(t, p), truth) && Sent(t, p).references == t.references
    ensures Call(t, p).Ok? ==>
              && Sent(t, p).units.Keys == t.units.Keys + {p.group}
              && Sent(t, p).entries.Keys == t.entries.Keys + KeysOf(p.members)
  {
    MembersResolve(t.entries, p.members, truth);
    MembersAccepted(t.entries, p.members, truth);
  }

  /** A refer of the archive waits for its group, and then is refused for the same reason only. */
  lemma {:induction false} ReferOnAgreeing(t: Registry, p: Payload, truth: Truth)
    requires Agrees(t, truth) && Consistent(p, truth) && p.Refer?
    ensures Call(t, p) == if p.group !in t.units then GroupNotFound
                          else if !RowFits(p, t.entries.Keys) then OtherRevert
                          else if (p.group, p.member.key) in t.references then Duplicate else Ok
    ensures Agrees(Sent(t, p), truth) && Sent(t, p).units == t.units
    ensures Call(t, p).Ok? ==>
              && Sent(t, p).references.Keys == t.references.Keys + {(p.group, p.member.key)}
              && Sent(t, p).entries.Keys == t.entries.Keys + {p.member.key}
  {}

  // Which groups, files and links a list of rows adds; none of it looks at the order.

  function Groups(rows: seq<Row>): set<Key> { set row | row in rows :: row.payload.group }

  function Link(p: Payload): (Key, Key)
    requires p.Refer?
  {
    (p.group, p.member.key)
  }

  function Links(rows: seq<Row>, units: set<Key>): set<(Key, Key)> {
    set row | row in rows && row.payload.Refer? && row.payload.group in units :: Link(row.payload)
  }

  function Referring(rows: seq<Row>, units: set<Key>, references: set<(Key, Key)>): set<Key> {
    set row | row in rows && row.payload.Refer? && row.payload.group in units && Link(row.payload) !in references
    :: row.payload.member.key
  }

  /** The member keys of the registers whose group is not there yet. */
  function NewKeys(rows: seq<Row>, units: set<Key>): set<Key> {
    set row, m | row in rows && row.payload.Register? && row.payload.group !in units && m in row.payload.members :: m.key
  }

  lemma {:induction false} NewKeysNext(rows: seq<Row>, units: set<Key>)
    requires rows != [] && rows[|rows| - 1].payload.Register?
    ensures var front, last := rows[..|rows| - 1], rows[|rows| - 1].payload;
            NewKeys(rows, units) == NewKeys(front, units) + if last.group in units then {} else KeysOf(last.members)
  {
    assert rows == rows[..|rows| - 1] + [rows[|rows| - 1]];
  }

  /** A register of a group that an earlier row also registers brings no new keys. */
  lemma {:induction false} RepeatedGroup(rows: seq<Row>, units: set<Key>, p: Payload, truth: Truth)
    requires ConsistentRows(rows, truth) && Registers(rows) && Consistent(p, truth) && p.Register?
    requires p.group in Groups(rows) && p.group !in units
    ensures KeysOf(p.members) <= NewKeys(rows, units)
  {
    var row :| row in rows && row.payload.group == p.group;
    assert Consistent(row.payload, truth) && row.payload.Register?;
    assert row.payload == p;
  }

  lemma {:induction false} Appending(rows: seq<Row>, units: set<Key>, references: set<(Key, Key)>)
    requires rows != []
    ensures var front, last := rows[..|rows| - 1], rows[|rows| - 1].payload;
            && Groups(rows) == Groups(front) + {last.group}
            && (last.Refer? ==> Links(rows, units) == Links(front, units) + if last.group in units then {Link(last)} else {})
            && (last.Refer? ==> Referring(rows, units, references) == Referring(front, units, references)
                                + if last.group in units && Link(last) !in references then {last.member.key} else {})
  {
    assert rows == rows[..|rows| - 1] + [rows[|rows| - 1]];
  }

  predicate Registers(rows: seq<Row>) { forall i | 0 <= i < |rows| :: rows[i].payload.Register? }

  lemma {:induction false} LastRow(y: Tally, rows: seq<Row>)
    requires rows != []
    ensures var m, last := Round(y, rows[..|rows| - 1]), rows[|rows| - 1];
            && Round(y, rows).target == Sent(m.target, last.payload)
            && (!Call(m.target, last.payload).OtherRevert? ==> Round(y, rows).failed == m.failed)
  {}

  /** What the registry looks like after these registers. */
  predicate Registered(t: Registry, m: Registry, rows: seq<Row>, truth: Truth) {
    && Agrees(m, truth) && m.references == t.references
    && m.units.Keys == t.units.Keys + Groups(rows)
    && m.entries.Keys == t.entries.Keys + NewKeys(rows, t.units.Keys)
  }

  /** No register can be the first to file a key with hints that do not fit. */
  predicate RegistersFit(t: Registry, rows: seq<Row>) {
    forall i | 0 <= i < |rows| :: rows[i].payload.group in t.units || RowFits(rows[i].payload, t.entries.Keys)
  }

  lemma {:induction false} FitsStays(p: Payload, keys: set<Key>, more: set<Key>)
    requires RowFits(p, keys) && keys <= more
    ensures RowFits(p, more)
  {}

  lemma {:induction false} GroupsNext(rows: seq<Row>, units: set<Key>, groups: set<Key>, filed: set<Key>, keys: set<Key>)
    requires rows != [] && rows[|rows| - 1].payload.Register?
    requires groups == units + Groups(rows[..|rows| - 1]) && keys == filed + NewKeys(rows[..|rows| - 1], units)
    requires var p := rows[|rows| - 1].payload;
             p.group in groups && p.group !in units ==> KeysOf(p.members) <= NewKeys(rows[..|rows| - 1], units)
    ensures var p := rows[|rows| - 1].payload;
            && groups + {p.group} == units + Groups(rows)
            && keys + (if p.group in groups then {} else KeysOf(p.members)) == filed + NewKeys(rows, units)
  {
    Appending(rows, {}, {});
    NewKeysNext(rows, units);
  }

  lemma {:induction false} RegisteredGroups(t: Registry, m: Registry, rows: seq<Row>, truth: Truth)
    requires rows != [] && Registers(rows) && ConsistentRows(rows, truth) && Registered(t, m, rows[..|rows| - 1], truth)
    ensures var p := rows[|rows| - 1].payload;
            && m.units.Keys + {p.group} == t.units.Keys + Groups(rows)
            && m.entries.Keys + (if p.group in m.units then {} else KeysOf(p.members)) == t.entries.Keys + NewKeys(rows, t.units.Keys)
  {
    var front, p := rows[..|rows| - 1], rows[|rows| - 1].payload;
    if p.group in Groups(front) && p.group !in t.units { RepeatedGroup(front, t.units.Keys, p, truth); }
    GroupsNext(rows, t.units.Keys, m.units.Keys, t.entries.Keys, m.entries.Keys);
  }

  lemma {:induction false} RegisterNext(m: Registry, p: Payload, keys: set<Key>, truth: Truth)
    requires Agrees(m, truth) && Consistent(p, truth) && p.Register? && keys <= m.entries.Keys
    requires p.group in m.units || RowFits(p, keys)
    ensures !Call(m, p).OtherRevert? && Agrees(Sent(m, p), truth) && Sent(m, p).references == m.references
    ensures Sent(m, p).units.Keys == m.units.Keys + {p.group}
    ensures Sent(m, p).entries.Keys == m.entries.Keys + if p.group in m.units then {} else KeysOf(p.members)
  {
    RegisterOnAgreeing(m, p, truth);
    if p.group !in m.units { FitsStays(p, keys, m.entries.Keys); }
  }

  lemma {:induction false} RegisteredNext(t: Registry, m: Registry, rows: seq<Row>, truth: Truth)
    requires rows != [] && Registers(rows) && ConsistentRows(rows, truth) && RegistersFit(t, rows)
    requires Registered(t, m, rows[..|rows| - 1], truth)
    ensures Registered(t, Sent(m, rows[|rows| - 1].payload), rows, truth)
    ensures !Call(m, rows[|rows| - 1].payload).OtherRevert?
  {
    RegisterNext(m, rows[|rows| - 1].payload, t.entries.Keys, truth);
    RegisteredGroups(t, m, rows, truth);
  }

  /** A round of registers creates exactly the missing groups. */
  lemma {:induction false} RegistersAdd(y: Tally, rows: seq<Row>, truth: Truth)
    requires Registers(rows) && ConsistentRows(rows, truth) && Agrees(y.target, truth) && RegistersFit(y.target, rows)
    ensures Registered(y.target, Round(y, rows).target, rows, truth) && Round(y, rows).failed == y.failed
  {
    if rows == [] {
      assert Groups(rows) == {} && NewKeys(rows, y.target.units.Keys) == {};
    } else {
      RegistersAdd(y, rows[..|rows| - 1], truth);
      LastRow(y, rows);
      RegisteredNext(y.target, Round(y, rows[..|rows| - 1]).target, rows, truth);
    }
  }

  /** What the registry looks like after these refers. */
  predicate Referred(t: Registry, m: Registry, rows: seq<Row>, truth: Truth) {
    && Agrees(m, truth) && m.units == t.units
    && m.references.Keys == t.references.Keys + Links(rows, t.units.Keys)
    && m.entries.Keys == t.entries.Keys + Referring(rows, t.units.Keys, t.references.Keys)
  }

  /** No refer whose group is there can be the first to file a key with hints that do not fit. */
  predicate RefersFit(units: set<Key>, keys: set<Key>, rows: seq<Row>) {
    forall i | 0 <= i < |rows| :: rows[i].payload.group in units ==> RowFits(rows[i].payload, keys)
  }

  lemma {:induction false} LinksNext(rows: seq<Row>, units: set<Key>, references: set<(Key, Key)>, links: set<(Key, Key)>, filed: set<Key>, keys: set<Key>)
    requires rows != [] && rows[|rows| - 1].payload.Refer?
    requires links == references + Links(rows[..|rows| - 1], units)
    requires keys == filed + Referring(rows[..|rows| - 1], units, references)
    ensures var last := rows[|rows| - 1].payload;
            && links + (if last.group in units then {Link(last)} else {}) == references + Links(rows, units)
            && keys + (if last.group in units && Link(last) !in links then {last.member.key} else {})
               == filed + Referring(rows, units, references)
  {
    Appending(rows, units, references);
    ReferredTwice(rows[..|rows| - 1], units, references, rows[|rows| - 1].payload);
  }

  lemma {:induction false} ReferredNext(t: Registry, m: Registry, rows: seq<Row>, truth: Truth)
    requires rows != [] && rows[|rows| - 1].payload.Refer? && Consistent(rows[|rows| - 1].payload, truth)
    requires Referred(t, m, rows[..|rows| - 1], truth)
    requires rows[|rows| - 1].payload.group in t.units ==> RowFits(rows[|rows| - 1].payload, t.entries.Keys)
    ensures Referred(t, Sent(m, rows[|rows| - 1].payload), rows, truth)
    ensures !Call(m, rows[|rows| - 1].payload).OtherRevert?
  {
    var p := rows[|rows| - 1].payload;
    ReferOnAgreeing(m, p, truth);
    if p.group in t.units { FitsStays(p, t.entries.Keys, m.entries.Keys); }
    LinksNext(rows, t.units.Keys, t.references.Keys, m.references.Keys, t.entries.Keys, m.entries.Keys);
  }

  /** A round of refers creates exactly the missing links to groups that are there. */
  lemma {:induction false} RefersAdd(y: Tally, rows: seq<Row>, truth: Truth)
    requires Refers(rows) && ConsistentRows(rows, truth) && Agrees(y.target, truth)
    requires RefersFit(y.target.units.Keys, y.target.entries.Keys, rows)
    ensures Referred(y.target, Round(y, rows).target, rows, truth) && Round(y, rows).failed == y.failed
  {
    if rows != [] {
      RefersAdd(y, rows[..|rows| - 1], truth);
      LastRow(y, rows);
      ReferredNext(y.target, Round(y, rows[..|rows| - 1]).target, rows, truth);
    }
  }

  /** A link that an earlier row created has its key filed by that row. */
  lemma {:induction false} ReferredTwice(front: seq<Row>, units: set<Key>, references: set<(Key, Key)>, p: Payload)
    requires p.Refer?
    ensures Link(p) in Links(front, units) && Link(p) !in references ==> p.member.key in Referring(front, units, references)
  {
    if Link(p) in Links(front, units) && Link(p) !in references {
      var row :| row in front && row.payload.Refer? && row.payload.group in units && Link(row.payload) == Link(p);
      assert row.payload.member.key == p.member.key;
    }
  }

  /** The same groups, references and files; only the display hints may differ. */
  predicate SameRecords(a: Registry, b: Registry) {
    && a.units == b.units && a.references == b.references && a.entries.Keys == b.entries.Keys
    && forall k | k in a.entries ::
         a.entries[k].attestation == b.entries[k].attestation && a.entries[k].credential == b.entries[k].credential
  }

  lemma {:induction false} TruthDecides(a: Registry, b: Registry, truth: Truth)
    requires Agrees(a, truth) && Agrees(b, truth)
    requires a.units.Keys == b.units.Keys && a.references.Keys == b.references.Keys && a.entries.Keys == b.entries.Keys
    ensures SameRecords(a, b)
  {
    assert forall g | g in a.units :: a.units[g] == b.units[g];
    assert forall l | l in a.references :: a.references[l] == b.references[l];
  }

  /** The condition on archive and target under which no order of the rows makes one fail. */
  predicate Fileable(t: Registry, registers: seq<Row>, refers: seq<Row>) {
    && RegistersFit(t, registers)
    && RefersFit(t.units.Keys + Groups(registers), t.entries.Keys + NewKeys(registers, t.units.Keys), refers)
  }

  lemma {:induction false} FirstRoundAdds(t: Registry, registers: seq<Row>, refers: seq<Row>, truth: Truth)
    requires Registers(registers) && Refers(refers) && ConsistentRows(registers, truth) && ConsistentRows(refers, truth)
    requires Agrees(t, truth) && Fileable(t, registers, refers)
    ensures var z, units := Round(Start(t), registers + refers), t.units.Keys + Groups(registers);
            && Agrees(z.target, truth) && z.failed == []
            && z.target.units.Keys == units
            && z.target.references.Keys == t.references.Keys + Links(refers, units)
            && z.target.entries.Keys == t.entries.Keys + NewKeys(registers, t.units.Keys)
                                        + Referring(refers, units, t.references.Keys)
  {
    RegistersAdd(Start(t), registers, truth);
    RefersAdd(Round(Start(t), registers), refers, truth);
    RoundSplits(Start(t), registers, refers);
  }

  // ── Where consistent archives come from ──────────────────────────────────

  const EMPTY := Registry(map[], map[], map[])

  function FilesOf(entries: map<Key, Entry>): map<Key, (string, string)> {
    map k | k in entries :: (entries[k].attestation, entries[k].credential)
  }

  function TruthOf(t: Registry): Truth { Truth(FilesOf(t.entries), t.units, t.references) }

  lemma {:induction false} MembersAreFiled(entries: map<Key, Entry>, members: seq<Member>, i: nat)
    requires AllAccepted(entries, members) && i < |members|
    ensures var all := ResolveAll(entries, members);
            && members[i].key in all && all[members[i].key].attestation == members[i].attestation
            && all[members[i].key].credential == members[i].credential
    decreases |members|
  {
    var next := Resolve(entries, members[0]);
    if i == 0 {
      ResolveAllKeeps(next, members[1..], members[0].key);
    } else {
      MembersAreFiled(next, members[1..], i - 1);
    }
  }

  /** What a write recorded is never contradicted by a later one. */
  lemma {:induction false} RecordsStay(t: Registry, p: Payload, q: Payload)
    requires Consistent(p, TruthOf(t)) && Call(t, q).Ok?
    ensures Consistent(p, TruthOf(Write(t, q)))
  {
    if q.Register? {
      forall k | k in t.entries
        ensures k in ResolveAll(t.entries, q.members) && ResolveAll(t.entries, q.members)[k] == t.entries[k]
      {
        ResolveAllKeeps(t.entries, q.members, k);
      }
    }
  }

  lemma {:induction false} WriteIsRecorded(t: Registry, p: Payload)
    requires Call(t, p).Ok? && forall g | g in t.units :: t.units[g].Register? && t.units[g].group == g
    ensures Consistent(p, TruthOf(Write(t, p)))
  {
    if p.Register? {
      forall i | 0 <= i < |p.members| ensures KnownFile(TruthOf(Write(t, p)), p.members[i]) {
        MembersAreFiled(t.entries, p.members, i);
      }
    }
  }

  /** The successful writes of one deployment, in the order they were made, form an archive that
      is consistent with it. */
  lemma {:induction false} ArchiveIsConsistent(history: seq<Row>)
    requires Round(Start(EMPTY), history).sent == |history|
    ensures var t := Round(Start(EMPTY), history).target;
            && ConsistentRows(history, TruthOf(t))
            && forall g | g in t.units :: t.units[g].Register? && t.units[g].group == g
  {
    if history != [] {
      var front, last := history[..|history| - 1], history[|history| - 1].payload;
      var m := Round(Start(EMPTY), front).target;
      RoundCounts(Start(EMPTY), front);
      assert Call(m, last).Ok?;
      ArchiveIsConsistent(front);
      WriteIsRecorded(m, last);
      forall i | 0 <= i < |front| ensures Consistent(history[i].payload, TruthOf(Write(m, last))) {
        assert Consistent(front[i].payload, TruthOf(m));
        RecordsStay(m, front[i].payload, last);
      }
    }
  }
}
