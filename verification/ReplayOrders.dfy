/**
 * In which orders an archive can be replayed, and which of them agree
 * (p256-replay/src/main.rs:444-538). Files are created by whichever row comes first, and only
 * then are the lengths of its display hints looked at; so a row that its own deployment took
 * can be refused by another one, and the hints a key ends up with can depend on the order.
 */
module ReplayOrders {
  import opened Basics
  import opened Replay
  import opened Archives

  predicate Reorders(a: seq<Row>, b: seq<Row>) { multiset(a) == multiset(b) }

  lemma {:induction false} SameRows(a: seq<Row>, b: seq<Row>)
    requires Reorders(a, b)
    ensures forall row :: row in a <==> row in b
  {
    forall row ensures row in a <==> row in b {
      assert row in a <==> row in multiset(a);
      assert row in b <==> row in multiset(b);
    }
  }

  /** Nothing that decides the outcome looks at the order. */
  lemma {:induction false} OrderIsInvisible(a: seq<Row>, b: seq<Row>, units: set<Key>, references: set<(Key, Key)>)
    requires Reorders(a, b)
    ensures Groups(a) == Groups(b) && Links(a, units) == Links(b, units) && NewKeys(a, units) == NewKeys(b, units)
    ensures Referring(a, units, references) == Referring(b, units, references)
  {
    SameRows(a, b);
  }

  lemma {:induction false} ShuffledStaysFit(a: seq<Row>, b: seq<Row>, truth: Truth)
    requires Reorders(a, b) && ConsistentRows(a, truth)
    ensures ConsistentRows(b, truth) && (Registers(a) ==> Registers(b)) && (Refers(a) ==> Refers(b))
  {
    SameRows(a, b);
    forall i | 0 <= i < |b| ensures b[i] in a { assert b[i] in b; }
  }

  lemma {:induction false} ShuffledStaysFileable(t: Registry, registers: seq<Row>, refers: seq<Row>, rs: seq<Row>, fs: seq<Row>)
    requires Reorders(registers, rs) && Reorders(refers, fs) && Fileable(t, registers, refers)
    ensures Fileable(t, rs, fs)
  {
    SameRows(registers, rs);
    SameRows(refers, fs);
    OrderIsInvisible(registers, rs, t.units.Keys, {});
    forall i | 0 <= i < |rs| ensures rs[i] in registers { assert rs[i] in rs; }
    forall i | 0 <= i < |fs| ensures fs[i] in refers { assert fs[i] in fs; }
  }

  /** The archive, the target and what both come from. */
  predicate Setting(t: Registry, registers: seq<Row>, refers: seq<Row>, truth: Truth) {
    && Registers(registers) && Refers(refers) && ConsistentRows(registers, truth) && ConsistentRows(refers, truth)
    && Agrees(t, truth)
  }

  function Outcome(t: Registry, rs: seq<Row>, fs: seq<Row>): Tally { Round(Start(t), rs + fs) }

  // ── When no order fails ──────────────────────────────────────────────────

  ghost predicate NeverFails(t: Registry, registers: seq<Row>, refers: seq<Row>) {
    forall rs, fs :: Reorders(registers, rs) && Reorders(refers, fs) ==> Outcome(t, rs, fs).failed == []
  }

  lemma {:induction false} FailuresStay(y: Tally, queue: seq<Row>)
    ensures |Round(y, queue).failed| >= |y.failed|
  {
    if queue != [] { FailuresStay(y, queue[..|queue| - 1]); }
  }

  lemma {:induction false} FirstIsVisited(y: Tally, row: Row, rest: seq<Row>)
    ensures Round(y, [row] + rest) == Round(Visit(y, row), rest)
  {
    RoundSplits(y, [row], rest);
    assert [row][..0] == [];
    RoundNext(y, [row], 0);
    assert [row][..1] == [row];
  }

  lemma {:induction false} FirstFails(y: Tally, row: Row, rest: seq<Row>)
    requires Call(y.target, row.payload).OtherRevert?
    ensures Round(y, [row] + rest).failed != []
  {
    FirstIsVisited(y, row, rest);
    FailuresStay(Visit(y, row), rest);
  }

  function Rest(rows: seq<Row>, i: nat): seq<Row>
    requires i < |rows|
  {
    rows[..i] + rows[i + 1..]
  }

  /** Any row can be the first. */
  lemma {:induction false} AnyoneFirst(rows: seq<Row>, i: nat)
    requires i < |rows|
    ensures Reorders(rows, [rows[i]] + Rest(rows, i))
  {
    assert rows == rows[..i] + [rows[i]] + rows[i + 1..];
  }

  lemma {:induction false} RefusedRegisterFails(t: Registry, registers: seq<Row>, refers: seq<Row>, i: nat)
    requires i < |registers| && Call(t, registers[i].payload).OtherRevert?
    ensures !NeverFails(t, registers, refers)
  {
    var row, rest := registers[i], Rest(registers, i);
    AnyoneFirst(registers, i);
    assert Reorders(refers, refers);
    assert [row] + rest + refers == [row] + (rest + refers);
    FirstFails(Start(t), row, rest + refers);
    assert Outcome(t, [row] + rest, refers).failed != [];
  }

  lemma {:induction false} RefusedReferFails(t: Registry, registers: seq<Row>, refers: seq<Row>, i: nat)
    requires i < |refers| && Call(Round(Start(t), registers).target, refers[i].payload).OtherRevert?
    ensures !NeverFails(t, registers, refers)
  {
    var row, rest := refers[i], Rest(refers, i);
    AnyoneFirst(refers, i);
    assert Reorders(registers, registers);
    RoundSplits(Start(t), registers, [row] + rest);
    FirstFails(Round(Start(t), registers), row, rest);
    assert Outcome(t, registers, [row] + rest).failed != [];
  }

  lemma {:induction false} RegisterMustFit(t: Registry, registers: seq<Row>, refers: seq<Row>, truth: Truth, i: nat)
    requires Setting(t, registers, refers, truth) && NeverFails(t, registers, refers) && i < |registers|
    ensures registers[i].payload.group in t.units || RowFits(registers[i].payload, t.entries.Keys)
  {
    RegisterOnAgreeing(t, registers[i].payload, truth);
    if Call(t, registers[i].payload).OtherRevert? { RefusedRegisterFails(t, registers, refers, i); }
  }

  lemma {:induction false} ReferMustFit(t: Registry, registers: seq<Row>, refers: seq<Row>, truth: Truth, i: nat)
    requires Setting(t, registers, refers, truth) && NeverFails(t, registers, refers) && RegistersFit(t, registers) && i < |refers|
    requires refers[i].payload.group in t.units.Keys + Groups(registers)
    ensures RowFits(refers[i].payload, t.entries.Keys + NewKeys(registers, t.units.Keys))
  {
    RegistersAdd(Start(t), registers, truth);
    var m := Round(Start(t), registers).target;
    ReferOnAgreeing(m, refers[i].payload, truth);
    if Call(m, refers[i].payload).OtherRevert? { RefusedReferFails(t, registers, refers, i); }
  }

  /** No order of one deployment's rows makes any of them fail exactly when every row that can be
      the first to file a key has hints that fit: each register whose group is not on the target,
      for its keys that are not, and each refer whose group is or will be there, for a key that
      neither the target nor such a register files. */
  lemma {:induction false} NeverFailsExactly(t: Registry, registers: seq<Row>, refers: seq<Row>, truth: Truth)
    requires Setting(t, registers, refers, truth)
    ensures NeverFails(t, registers, refers) <==> Fileable(t, registers, refers)
  {
    if NeverFails(t, registers, refers) {
      forall i | 0 <= i < |registers|
        ensures registers[i].payload.group in t.units || RowFits(registers[i].payload, t.entries.Keys)
      {
        RegisterMustFit(t, registers, refers, truth, i);
      }
      assert RegistersFit(t, registers);
      forall i | 0 <= i < |refers| && refers[i].payload.group in t.units.Keys + Groups(registers)
        ensures RowFits(refers[i].payload, t.entries.Keys + NewKeys(registers, t.units.Keys))
      {
        ReferMustFit(t, registers, refers, truth, i);
      }
    }
    if Fileable(t, registers, refers) {
      forall rs, fs | Reorders(registers, rs) && Reorders(refers, fs) ensures Outcome(t, rs, fs).failed == [] {
        OneOrder(t, registers, refers, truth, rs, fs);
      }
    }
  }

  lemma {:induction false} OneOrder(t: Registry, registers: seq<Row>, refers: seq<Row>, truth: Truth, rs: seq<Row>, fs: seq<Row>)
    requires Setting(t, registers, refers, truth) && Fileable(t, registers, refers)
    requires Reorders(registers, rs) && Reorders(refers, fs)
    ensures Setting(t, rs, fs, truth) && Fileable(t, rs, fs) && Outcome(t, rs, fs).failed == []
  {
    ShuffledStaysFit(registers, rs, truth);
    ShuffledStaysFit(refers, fs, truth);
    ShuffledStaysFileable(t, registers, refers, rs, fs);
    FirstRoundAdds(t, rs, fs, truth);
  }

  // ── When every order leaves the same records ─────────────────────────────

  /** Under the condition all orders leave the same groups, references and files. */
  lemma {:induction false} OrderDoesNotMatter(t: Registry, registers: seq<Row>, refers: seq<Row>, truth: Truth, rs: seq<Row>, fs: seq<Row>)
    requires Setting(t, registers, refers, truth) && Fileable(t, registers, refers)
    requires Reorders(registers, rs) && Reorders(refers, fs)
    ensures SameRecords(Outcome(t, registers, refers).target, Outcome(t, rs, fs).target)
  {
    OneOrder(t, registers, refers, truth, rs, fs);
    FirstRoundAdds(t, registers, refers, truth);
    FirstRoundAdds(t, rs, fs, truth);
    OrderIsInvisible(registers, rs, t.units.Keys, {});
    OrderIsInvisible(refers, fs, t.units.Keys + Groups(registers), t.references.Keys);
    TruthDecides(Outcome(t, registers, refers).target, Outcome(t, rs, fs).target, truth);
  }

  ghost predicate SameRecordsInEveryOrder(t: Registry, registers: seq<Row>, refers: seq<Row>) {
    forall rs, fs :: Reorders(registers, rs) && Reorders(refers, fs) ==>
      Outcome(t, rs, fs).failed == [] && SameRecords(Outcome(t, registers, refers).target, Outcome(t, rs, fs).target)
  }

  /** The same records without a failure in every order: exactly under the same condition. */
  lemma {:induction false} SameRecordsExactly(t: Registry, registers: seq<Row>, refers: seq<Row>, truth: Truth)
    requires Setting(t, registers, refers, truth)
    ensures SameRecordsInEveryOrder(t, registers, refers) <==> Fileable(t, registers, refers)
  {
    NeverFailsExactly(t, registers, refers, truth);
    if Fileable(t, registers, refers) {
      forall rs, fs | Reorders(registers, rs) && Reorders(refers, fs)
        ensures SameRecords(Outcome(t, registers, refers).target, Outcome(t, rs, fs).target)
      {
        OrderDoesNotMatter(t, registers, refers, truth, rs, fs);
      }
    }
  }

  // ── When nothing is left over ────────────────────────────────────────────

  /** The archive or the target holds every group that is referred to. */
  predicate Complete(t: Registry, registers: seq<Row>, refers: seq<Row>) {
    forall i | 0 <= i < |refers| :: refers[i].payload.group in t.units.Keys + Groups(registers)
  }

  ghost predicate CleanInEveryOrder(t: Registry, registers: seq<Row>, refers: seq<Row>) {
    forall rs, fs :: Reorders(registers, rs) && Reorders(refers, fs) ==>
      Outcome(t, rs, fs).failed == [] && Outcome(t, rs, fs).retry == []
  }

  lemma {:induction false} HomelessIsRetried(y: Tally, queue: seq<Row>, k: nat)
    requires Refers(queue) && k < |queue| && Homeless(queue[k], y.target.units)
    ensures queue[k] in Round(y, queue).retry
  {
    var front := queue[..|queue| - 1];
    RefersLeaveGroups(y, front);
    if k < |front| { HomelessIsRetried(y, front, k); }
  }

  lemma {:induction false} OneCleanOrder(t: Registry, registers: seq<Row>, refers: seq<Row>, truth: Truth)
    requires Setting(t, registers, refers, truth) && Fileable(t, registers, refers)
    ensures Outcome(t, registers, refers).retry == [] <==> Complete(t, registers, refers)
  {
    FirstRoundAdds(t, registers, refers, truth);
    FirstRoundDecides(t, registers, refers);
    var z := Outcome(t, registers, refers);
    if Complete(t, registers, refers) {
      Inhabited(z.retry);
    } else {
      var i :| 0 <= i < |refers| && refers[i].payload.group !in t.units.Keys + Groups(registers);
      RegistersAdd(Start(t), registers, truth);
      RoundSplits(Start(t), registers, refers);
      HomelessIsRetried(Round(Start(t), registers), refers, i);
    }
  }

  lemma {:induction false} Inhabited(rows: seq<Row>)
    ensures rows != [] ==> exists i | 0 <= i < |rows| :: rows[i] in rows
  {
    if rows != [] { assert rows[0] in rows; }
  }

  /** A replay of one deployment's archive ends without a failed row, whatever the seed, exactly
      when every group referred to is there or comes with it and no first filer's hints are too long. */
  lemma {:induction false} CleanExactly(t: Registry, registers: seq<Row>, refers: seq<Row>, truth: Truth)
    requires Setting(t, registers, refers, truth)
    ensures CleanInEveryOrder(t, registers, refers) <==> Fileable(t, registers, refers) && Complete(t, registers, refers)
  {
    NeverFailsExactly(t, registers, refers, truth);
    if Fileable(t, registers, refers) {
      OneCleanOrder(t, registers, refers, truth);
      assert Reorders(registers, registers) && Reorders(refers, refers);
      forall rs, fs | Reorders(registers, rs) && Reorders(refers, fs)
        ensures Outcome(t, rs, fs).retry == [] <==> Complete(t, registers, refers)
      {
        OneOrder(t, registers, refers, truth, rs, fs);
        OneCleanOrder(t, rs, fs, truth);
        SameCompleteness(t, registers, refers, rs, fs);
      }
    }
  }

  lemma {:induction false} SameCompleteness(t: Registry, registers: seq<Row>, refers: seq<Row>, rs: seq<Row>, fs: seq<Row>)
    requires Reorders(registers, rs) && Reorders(refers, fs)
    ensures Complete(t, registers, refers) <==> Complete(t, rs, fs)
  {
    OrderIsInvisible(registers, rs, {}, {});
    SameRows(refers, fs);
    assert forall i | 0 <= i < |fs| :: fs[i] in fs && fs[i] in refers;
    assert forall i | 0 <= i < |refers| :: refers[i] in refers && refers[i] in fs;
  }

  // ── When every order leaves the same hints ───────────────────────────────

  /** The hints that new registers bring for a key. */
  function RegisterOffers(rows: seq<Row>, units: set<Key>, k: Key): set<Hints> {
    set row, m | row in rows && row.payload.Register? && row.payload.group !in units && m in row.payload.members && m.key == k
    :: m.hints
  }

  /** The hints that refers to groups that are there bring for a key. */
  function ReferOffers(rows: seq<Row>, units: set<Key>, k: Key): set<Hints> {
    set row | row in rows && row.payload.Refer? && row.payload.group in units && row.payload.member.key == k
    :: row.payload.member.hints
  }

  predicate AtMostOne(offers: set<Hints>) { forall h, g | h in offers && g in offers :: h == g }

  /** For each key that is not on the target: all new registers bring the same hints, and if none
      files it, all refers that can do. */
  ghost predicate HintsAgree(t: Registry, registers: seq<Row>, refers: seq<Row>) {
    forall k: Key | k !in t.entries ::
      && AtMostOne(RegisterOffers(registers, t.units.Keys, k))
      && (k !in NewKeys(registers, t.units.Keys) ==> AtMostOne(ReferOffers(refers, t.units.Keys + Groups(registers), k)))
  }

  lemma {:induction false} OffersIgnoreOrder(a: seq<Row>, b: seq<Row>, units: set<Key>, k: Key)
    requires Reorders(a, b)
    ensures RegisterOffers(a, units, k) == RegisterOffers(b, units, k) && ReferOffers(a, units, k) == ReferOffers(b, units, k)
  {
    SameRows(a, b);
  }

  /** A file keeps what it was created with. */
  lemma {:induction false} FileStays(y: Tally, queue: seq<Row>, k: Key)
    requires k in y.target.entries
    ensures k in Round(y, queue).target.entries && Round(y, queue).target.entries[k] == y.target.entries[k]
  {
    if queue != [] {
      FileStays(y, queue[..|queue| - 1], k);
      LastRow(y, queue);
      var m, p := Round(y, queue[..|queue| - 1]).target, queue[|queue| - 1].payload;
      if p.Register? { ResolveAllKeeps(m.entries, p.members, k); }
    }
  }

  lemma {:induction false} NewFileIsAMembers(entries: map<Key, Entry>, members: seq<Member>, k: Key)
    requires k !in entries && k in ResolveAll(entries, members)
    ensures exists m :: m in members && m.key == k && m.hints == ResolveAll(entries, members)[k].hints
    decreases |members|
  {
    var next := Resolve(entries, members[0]);
    if k in next {
      ResolveAllKeeps(next, members[1..], k);
      assert members[0] in members;
    } else {
      NewFileIsAMembers(next, members[1..], k);
      var m :| m in members[1..] && m.key == k && m.hints == ResolveAll(next, members[1..])[k].hints;
      assert m in members;
    }
  }

  /** A file that a round of registers creates has hints that one of the new registers brought. */
  lemma {:induction false} RegistersOffer(y: Tally, rows: seq<Row>, k: Key)
    requires Registers(rows)
    ensures var m := Round(y, rows).target;
            && y.target.units.Keys <= m.units.Keys
            && (k in m.entries && k !in y.target.entries ==> m.entries[k].hints in RegisterOffers(rows, y.target.units.Keys, k))
  {
    if rows != [] {
      var front, last := rows[..|rows| - 1], rows[|rows| - 1];
      var m := Round(y, front).target;
      RegistersOffer(y, front, k);
      LastRow(y, rows);
      assert rows == front + [last];
      if Call(m, last.payload).Ok? {
        if k in m.entries {
          ResolveAllKeeps(m.entries, last.payload.members, k);
        } else if k in Round(y, rows).target.entries {
          NewFileIsAMembers(m.entries, last.payload.members, k);
        }
      }
    }
  }

  lemma {:induction false} RefersOffer(y: Tally, rows: seq<Row>, k: Key)
    requires Refers(rows)
    ensures var m := Round(y, rows).target;
            && y.target.units == m.units
            && (k in m.entries && k !in y.target.entries ==> m.entries[k].hints in ReferOffers(rows, y.target.units.Keys, k))
  {
    if rows != [] {
      var front, last := rows[..|rows| - 1], rows[|rows| - 1];
      RefersOffer(y, front, k);
      LastRow(y, rows);
      assert rows == front + [last];
    }
  }

  /** Where the hints of a file come from after a whole replay. */
  lemma {:induction false} HintsComeFrom(t: Registry, rs: seq<Row>, fs: seq<Row>, truth: Truth, k: Key)
    requires Setting(t, rs, fs, truth) && Fileable(t, rs, fs) && k in Outcome(t, rs, fs).target.entries
    ensures var e := Outcome(t, rs, fs).target.entries[k];
            if k in t.entries then e == t.entries[k]
            else if k in NewKeys(rs, t.units.Keys) then e.hints in RegisterOffers(rs, t.units.Keys, k)
            else e.hints in ReferOffers(fs, t.units.Keys + Groups(rs), k)
  {
    RegistersAdd(Start(t), rs, truth);
    RoundSplits(Start(t), rs, fs);
    var m := Round(Start(t), rs);
    if k in t.entries { FileStays(Start(t), rs, k); }
    if k in m.target.entries { FileStays(m, fs, k); }
    RegistersOffer(Start(t), rs, k);
    RefersOffer(m, fs, k);
  }

  lemma {:induction false} AgreeingHintsAgree(t: Registry, registers: seq<Row>, refers: seq<Row>, truth: Truth, rs: seq<Row>, fs: seq<Row>, k: Key)
    requires Setting(t, registers, refers, truth) && Fileable(t, registers, refers) && HintsAgree(t, registers, refers)
    requires Reorders(registers, rs) && Reorders(refers, fs)
    requires k in Outcome(t, registers, refers).target.entries && k in Outcome(t, rs, fs).target.entries
    ensures Outcome(t, registers, refers).target.entries[k].hints == Outcome(t, rs, fs).target.entries[k].hints
  {
    OneOrder(t, registers, refers, truth, rs, fs);
    HintsComeFrom(t, registers, refers, truth, k);
    HintsComeFrom(t, rs, fs, truth, k);
    OrderIsInvisible(registers, rs, t.units.Keys, {});
    OffersIgnoreOrder(registers, rs, t.units.Keys, k);
    OffersIgnoreOrder(refers, fs, t.units.Keys + Groups(registers), k);
  }

  ghost predicate SameInEveryOrder(t: Registry, registers: seq<Row>, refers: seq<Row>) {
    forall rs, fs :: Reorders(registers, rs) && Reorders(refers, fs) ==>
      Outcome(t, rs, fs).failed == [] && Outcome(t, rs, fs).target == Outcome(t, registers, refers).target
  }

  lemma {:induction false} SameTarget(a: Registry, b: Registry)
    requires SameRecords(a, b) && forall k | k in a.entries :: a.entries[k].hints == b.entries[k].hints
    ensures a == b
  {
    assert forall k | k in a.entries :: a.entries[k] == b.entries[k];
    assert a.entries == b.entries;
  }

  lemma {:induction false} AgreeingOrdersAgree(t: Registry, registers: seq<Row>, refers: seq<Row>, truth: Truth, rs: seq<Row>, fs: seq<Row>)
    requires Setting(t, registers, refers, truth) && Fileable(t, registers, refers) && HintsAgree(t, registers, refers)
    requires Reorders(registers, rs) && Reorders(refers, fs)
    ensures Outcome(t, rs, fs).failed == [] && Outcome(t, rs, fs).target == Outcome(t, registers, refers).target
  {
    OneOrder(t, registers, refers, truth, rs, fs);
    OrderDoesNotMatter(t, registers, refers, truth, rs, fs);
    var a, b := Outcome(t, registers, refers).target, Outcome(t, rs, fs).target;
    forall k | k in a.entries ensures a.entries[k].hints == b.entries[k].hints {
      AgreeingHintsAgree(t, registers, refers, truth, rs, fs, k);
    }
    SameTarget(a, b);
  }

  // The other way: two different offers come first in two different orders.

  lemma {:induction false} MemberIsFiled(entries: map<Key, Entry>, members: seq<Member>, m: Member)
    requires DistinctKeys(members) && m in members && m.key !in entries
    ensures m.key in ResolveAll(entries, members) && ResolveAll(entries, members)[m.key].hints == m.hints
    decreases |members|
  {
    var next := Resolve(entries, members[0]);
    if m == members[0] {
      ResolveAllKeeps(next, members[1..], m.key);
    } else {
      var i :| 0 < i < |members| && members[i] == m;
      assert members[1..][i - 1] == m && members[0].key != members[i].key;
      assert forall a, b | 0 <= a < b < |members[1..]| :: members[1..][a].key == members[a + 1].key && members[1..][b].key == members[b + 1].key;
      MemberIsFiled(next, members[1..], m);
    }
  }

  lemma {:induction false} NewRegisterFiles(t: Registry, p: Payload, truth: Truth, m: Member)
    requires Agrees(t, truth) && Consistent(p, truth) && p.Register? && p.group !in t.units && RowFits(p, t.entries.Keys)
    requires m in p.members && m.key !in t.entries
    ensures Call(t, p).Ok? && m.key in Write(t, p).entries && Write(t, p).entries[m.key].hints == m.hints
  {
    RegisterOnAgreeing(t, p, truth);
    MemberIsFiled(t.entries, p.members, m);
  }

  lemma {:induction false} FirstFileStays(y: Tally, row: Row, rest: seq<Row>, k: Key)
    requires Call(y.target, row.payload).Ok? && k in Write(y.target, row.payload).entries
    ensures var z := Round(y, [row] + rest).target; k in z.entries && z.entries[k] == Write(y.target, row.payload).entries[k]
  {
    FirstIsVisited(y, row, rest);
    FileStays(Visit(y, row), rest, k);
  }

  lemma {:induction false} FirstRegisterWins(t: Registry, registers: seq<Row>, refers: seq<Row>, truth: Truth, k: Key, h: Hints)
    returns (rs: seq<Row>)
    requires Setting(t, registers, refers, truth) && Fileable(t, registers, refers)
    requires k !in t.entries && h in RegisterOffers(registers, t.units.Keys, k)
    ensures Reorders(registers, rs) && k in Outcome(t, rs, refers).target.entries
    ensures Outcome(t, rs, refers).target.entries[k].hints == h
  {
    var row, m :| row in registers && row.payload.group !in t.units && m in row.payload.members && m.key == k && m.hints == h;
    var i :| 0 <= i < |registers| && registers[i] == row;
    AnyoneFirst(registers, i);
    rs := [row] + Rest(registers, i);
    NewRegisterFiles(t, row.payload, truth, m);
    FirstFileStays(Start(t), row, Rest(registers, i) + refers, k);
    assert rs + refers == [row] + (Rest(registers, i) + refers);
  }

  lemma {:induction false} FirstReferWins(t: Registry, registers: seq<Row>, refers: seq<Row>, truth: Truth, k: Key, h: Hints)
    returns (fs: seq<Row>)
    requires Setting(t, registers, refers, truth) && Fileable(t, registers, refers) && Filed(t)
    requires k !in t.entries && k !in NewKeys(registers, t.units.Keys)
    requires h in ReferOffers(refers, t.units.Keys + Groups(registers), k)
    ensures Reorders(refers, fs) && k in Outcome(t, registers, fs).target.entries
    ensures Outcome(t, registers, fs).target.entries[k].hints == h
  {
    var units := t.units.Keys + Groups(registers);
    var row :| row in refers && row.payload.Refer? && row.payload.group in units && row.payload.member.key == k && row.payload.member.hints == h;
    var i :| 0 <= i < |refers| && refers[i] == row;
    AnyoneFirst(refers, i);
    fs := [row] + Rest(refers, i);
    RegistersAdd(Start(t), registers, truth);
    var m := Round(Start(t), registers);
    ReferOnAgreeing(m.target, row.payload, truth);
    assert Call(m.target, row.payload).Ok?;
    RoundSplits(Start(t), registers, fs);
    FirstIsVisited(m, row, Rest(refers, i));
    FileStays(Visit(m, row), Rest(refers, i), k);
  }

  lemma {:induction false} RegistersMustAgree(t: Registry, registers: seq<Row>, refers: seq<Row>, truth: Truth, k: Key, h: Hints, g: Hints)
    requires Setting(t, registers, refers, truth) && Fileable(t, registers, refers) && SameInEveryOrder(t, registers, refers)
    requires k !in t.entries
    requires h in RegisterOffers(registers, t.units.Keys, k) && g in RegisterOffers(registers, t.units.Keys, k)
    ensures h == g
  {
    var rs := FirstRegisterWins(t, registers, refers, truth, k, h);
    var rs' := FirstRegisterWins(t, registers, refers, truth, k, g);
    assert Reorders(refers, refers);
    assert Outcome(t, rs, refers).target == Outcome(t, rs', refers).target;
  }

  lemma {:induction false} RefersMustAgree(t: Registry, registers: seq<Row>, refers: seq<Row>, truth: Truth, k: Key, h: Hints, g: Hints)
    requires Setting(t, registers, refers, truth) && Fileable(t, registers, refers) && SameInEveryOrder(t, registers, refers)
    requires Filed(t) && k !in t.entries && k !in NewKeys(registers, t.units.Keys)
    requires var offers := ReferOffers(refers, t.units.Keys + Groups(registers), k); h in offers && g in offers
    ensures h == g
  {
    var fs := FirstReferWins(t, registers, refers, truth, k, h);
    var fs' := FirstReferWins(t, registers, refers, truth, k, g);
    assert Reorders(registers, registers);
    assert Outcome(t, registers, fs).target == Outcome(t, registers, fs').target;
  }

  /** Replays of one deployment's archive end without a failure and with the very same registry,
      hints included, in every order exactly when no first filer's hints are too long and, for each
      key that is not on the target, all rows that can file it bring the same hints. */
  lemma {:induction false} SameInEveryOrderExactly(t: Registry, registers: seq<Row>, refers: seq<Row>, truth: Truth)
    requires Setting(t, registers, refers, truth) && Filed(t)
    ensures SameInEveryOrder(t, registers, refers) <==> Fileable(t, registers, refers) && HintsAgree(t, registers, refers)
  {
    NeverFailsExactly(t, registers, refers, truth);
    if SameInEveryOrder(t, registers, refers) {
      assert Fileable(t, registers, refers);
      forall k: Key | k !in t.entries
        ensures AtMostOne(RegisterOffers(registers, t.units.Keys, k))
        ensures k !in NewKeys(registers, t.units.Keys) ==> AtMostOne(ReferOffers(refers, t.units.Keys + Groups(registers), k))
      {
        OffersMustAgree(t, registers, refers, truth, k);
      }
    }
    if Fileable(t, registers, refers) && HintsAgree(t, registers, refers) {
      forall rs, fs | Reorders(registers, rs) && Reorders(refers, fs)
        ensures Outcome(t, rs, fs).failed == [] && Outcome(t, rs, fs).target == Outcome(t, registers, refers).target
      {
        AgreeingOrdersAgree(t, registers, refers, truth, rs, fs);
      }
    }
  }

  lemma {:induction false} OffersMustAgree(t: Registry, registers: seq<Row>, refers: seq<Row>, truth: Truth, k: Key)
    requires Setting(t, registers, refers, truth) && Fileable(t, registers, refers) && SameInEveryOrder(t, registers, refers)
    requires Filed(t) && k !in t.entries
    ensures AtMostOne(RegisterOffers(registers, t.units.Keys, k))
    ensures k !in NewKeys(registers, t.units.Keys) ==> AtMostOne(ReferOffers(refers, t.units.Keys + Groups(registers), k))
  {
    var first := RegisterOffers(registers, t.units.Keys, k);
    forall h, g | h in first && g in first ensures h == g { RegistersMustAgree(t, registers, refers, truth, k, h, g); }
    if k !in NewKeys(registers, t.units.Keys) {
      var second := ReferOffers(refers, t.units.Keys + Groups(registers), k);
      forall h, g | h in second && g in second ensures h == g { RefersMustAgree(t, registers, refers, truth, k, h, g); }
    }
  }

  // ── Both conditions can fail ─────────────────────────────────────────────

  function Registering(g: Key, k: Key, hints: Hints): Row {
    Row("", Register("", "", g, [Member(k, "", "", hints)], true, true))
  }

  function ReferringTo(g: Key, k: Key, hints: Hints): Row {
    Row("", Refer(g, "", Member(k, "", "", hints), "", true, true))
  }

  lemma {:induction false} OneMember(t: Registry, g: Key, k: Key, hints: Hints)
    requires g !in t.units && k != g
    ensures var p := Registering(g, k, hints).payload;
            && Call(t, p) == (if Accepts(t.entries, p.members[0]) then Ok else OtherRevert)
            && Write(t, p) == Registry(t.units[g := p], Resolve(t.entries, p.members[0]), t.references)
  {
    var members := [Member(k, "", "", hints)];
    assert members[1..] == [];
    assert ResolveAll(t.entries, members) == Resolve(t.entries, members[0]);
    assert AllAccepted(t.entries, members) <==> Accepts(t.entries, members[0]);
  }

  /** A deployment takes hints of any length for a key that is filed; replayed before the row that
      filed it, the same write is refused. */
  lemma {:induction false} ShuffledReplayCanFail(k: Key, g: Key, h: Key, short: Hints, long: Hints)
    requires k != g && k != h && g != h && Fits(short) && !Fits(long)
    ensures var a, b := Registering(g, k, short), Registering(h, k, long);
            && Round(Start(EMPTY), [a, b]).sent == 2
            && Round(Start(EMPTY), [b, a]).failed != []
  {
    var a, b := Registering(g, k, short), Registering(h, k, long);
    OneMember(EMPTY, g, k, short);
    OneMember(EMPTY, h, k, long);
    var one := Visit(Start(EMPTY), a);
    OneMember(one.target, h, k, long);
    assert [a, b] == [a] + [b] && [b, a] == [b] + [a];
    FirstIsVisited(Start(EMPTY), a, [b]);
    FirstIsVisited(one, b, []);
    assert [b] + [] == [b];
    FirstFails(Start(EMPTY), b, [a]);
  }

  /** It does not take a shuffle: registers go first, so a register that followed the refer which
      filed its member is refused when the history is replayed as it stands. */
  lemma {:induction false} PlainReplayCanFail(k: Key, m: Key, g: Key, h: Key, short: Hints, long: Hints)
    requires k != g && k != h && g != h && m != g && m != k && Fits(short) && !Fits(long)
    ensures var a, r, b := Registering(g, m, short), ReferringTo(g, k, short), Registering(h, k, long);
            && Round(Start(EMPTY), [a, r, b]).sent == 3
            && Outcome(EMPTY, [a, b], [r]).failed != []
  {
    var a, r, b := Registering(g, m, short), ReferringTo(g, k, short), Registering(h, k, long);
    OneMember(EMPTY, g, m, short);
    var one := Visit(Start(EMPTY), a);
    assert one == Tally(Write(EMPTY, a.payload), 1, 0, [], []);
    OneMember(one.target, h, k, long);
    var two := Visit(one, r);
    assert Call(one.target, r.payload).Ok?;
    OneMember(two.target, h, k, long);
    var three := Visit(two, b);
    assert three.sent == 3;
    assert [a, r, b] == [a] + ([r] + ([b] + []));
    FirstIsVisited(Start(EMPTY), a, [r] + ([b] + []));
    FirstIsVisited(one, r, [b] + []);
    FirstIsVisited(two, b, []);
    assert [a, b] + [r] == [a] + ([b] + [r]);
    FirstIsVisited(Start(EMPTY), a, [b] + [r]);
    FirstFails(one, b, [r]);
  }

  /** Hints that differ show the order. */
  lemma {:induction false} HintsCanDependOnOrder(k: Key, g: Key, h: Key, hints: Hints, others: Hints)
    requires k != g && k != h && g != h && hints != others && Fits(hints) && Fits(others)
    ensures var a, b := Registering(g, k, hints), Registering(h, k, others);
            && Round(Start(EMPTY), [a, b]).sent == 2
            && Round(Start(EMPTY), [a, b]).target.entries != Round(Start(EMPTY), [b, a]).target.entries
  {
    var a, b := Registering(g, k, hints), Registering(h, k, others);
    OneMember(EMPTY, g, k, hints);
    OneMember(EMPTY, h, k, others);
    var one := Visit(Start(EMPTY), a);
    OneMember(one.target, h, k, others);
    assert [a, b] == [a] + ([b] + []) && [b, a] == [b] + [a];
    FirstIsVisited(Start(EMPTY), a, [b] + []);
    FirstIsVisited(one, b, []);
    FirstFileStays(Start(EMPTY), a, [b] + [], k);
    FirstFileStays(Start(EMPTY), b, [a], k);
  }
}
