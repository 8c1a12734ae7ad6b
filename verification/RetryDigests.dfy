/**
 * The group-key-agnostic retry digest (p256-registrar/src/admission.rs:313-338): rpId,
 * metadata and the sorted, lower-cased member keys, each length-prefixed. A string stands for
 * its bytes and the digest for the bytes that are hashed.
 */
module RetryDigests {
  import opened Basics
  import opened Tasks

  // ── Byte-wise string order and sorting ───────────────────────────────────

  predicate AtMost(a: string, b: string) {
    a == [] || (b != [] && (a[0] < b[0] || (a[0] == b[0] && AtMost(a[1..], b[1..]))))
  }

  lemma {:induction false} AtMostTotal(a: string, b: string)
    ensures AtMost(a, b) || AtMost(b, a)
  {
    if a != [] && b != [] && a[0] == b[0] { AtMostTotal(a[1..], b[1..]); }
  }

  lemma {:induction false} AtMostAntisymmetric(a: string, b: string)
    requires AtMost(a, b) && AtMost(b, a)
    ensures a == b
  {
    if a != [] && b != [] {
      AtMostAntisymmetric(a[1..], b[1..]);
      assert a == [a[0]] + a[1..] && b == [b[0]] + b[1..];
    }
  }

  lemma {:induction false} AtMostTransitive(a: string, b: string, c: string)
    requires AtMost(a, b) && AtMost(b, c)
    ensures AtMost(a, c)
  {
    if a != [] && a[0] == b[0] && b[0] == c[0] { AtMostTransitive(a[1..], b[1..], c[1..]); }
  }

  predicate Sorted(s: seq<string>) {
    forall i, j | 0 <= i < j < |s| :: AtMost(s[i], s[j])
  }

  function Insert(x: string, s: seq<string>): seq<string> {
    if s == [] then [x]
    else if AtMost(x, s[0]) then [x] + s
    else [s[0]] + Insert(x, s[1..])
  }

  function Sort(s: seq<string>): seq<string> {
    if s == [] then [] else Insert(s[0], Sort(s[1..]))
  }

  lemma {:induction false} InsertSorts(x: string, s: seq<string>)
    requires Sorted(s)
    ensures Sorted(Insert(x, s)) && multiset(Insert(x, s)) == multiset(s) + multiset{x}
  {
    if s == [] {
    } else {
      assert s == [s[0]] + s[1..];
      if AtMost(x, s[0]) {
        forall i | 0 <= i < |s| ensures AtMost(x, s[i]) {
          if i > 0 { AtMostTransitive(x, s[0], s[i]); }
        }
      } else {
        InsertSorts(x, s[1..]);
        AtMostTotal(x, s[0]);
        var tail := Insert(x, s[1..]);
        forall i | 0 <= i < |tail| ensures AtMost(s[0], tail[i]) {
          assert tail[i] in multiset(tail);
          assert tail[i] == x || tail[i] in s[1..];
        }
      }
    }
  }

  lemma {:induction false} SortSorts(s: seq<string>)
    ensures Sorted(Sort(s)) && multiset(Sort(s)) == multiset(s)
  {
    if s != [] {
      SortSorts(s[1..]);
      InsertSorts(s[0], Sort(s[1..]));
      assert s == [s[0]] + s[1..];
    }
  }

  lemma {:induction false} HeadIsLeast(s: seq<string>, x: string)
    requires Sorted(s) && x in s
    ensures AtMost(s[0], x)
  {
    AtMostTotal(x, x);
  }

  lemma {:induction false} TailMultiset(s: seq<string>)
    requires s != []
    ensures multiset(s[1..]) == multiset(s) - multiset{s[0]}
  {
    assert s == [s[0]] + s[1..];
  }

  lemma {:induction false} SortedIsUnique(a: seq<string>, b: seq<string>)
    requires Sorted(a) && Sorted(b) && multiset(a) == multiset(b)
    ensures a == b
  {
    assert |a| == |multiset(a)| == |b|;
    if a != [] {
      assert a[0] in multiset(b) && b[0] in multiset(a);
      HeadIsLeast(a, b[0]);
      HeadIsLeast(b, a[0]);
      AtMostAntisymmetric(a[0], b[0]);
      TailMultiset(a);
      TailMultiset(b);
      SortedIsUnique(a[1..], b[1..]);
    }
  }

  // ── The preimage ─────────────────────────────────────────────────────────

  const TWO_32: nat := 0x1_0000_0000

  /** (len as u32).to_be_bytes(): lengths of 2^32 and more lose their high bits. */
  function BigEndian32(n: nat): seq<nat> {
    [n / 0x100_0000 % 256, n / 0x1_0000 % 256, n / 256 % 256, n % 256]
  }

  function AsBytes(s: string): seq<nat> {
    seq(|s|, i requires 0 <= i < |s| => s[i] as nat)
  }

  function Preimage(parts: seq<string>): seq<nat> {
    if parts == [] then [] else BigEndian32(|parts[0]|) + AsBytes(parts[0]) + Preimage(parts[1..])
  }

  /** The text a hex field is stored as. */
  function Text(h: Hex): string {
    match h
    case Bytes(digits) => digits
    case Unparseable(text) => text
  }

  function MemberKeys(members: seq<Member>): seq<string> {
    seq(|members|, i requires 0 <= i < |members| => Lower(Text(members[i].publicKey)))
  }

  function Parts(task: Task): seq<string> {
    [task.rpId, Text(task.metadata)] + Sort(MemberKeys(task.members))
  }

  function RetryDigest(task: Task): seq<nat> {
    Preimage(Parts(task))
  }

  lemma {:induction false} PreimageSnoc(parts: seq<string>, last: string)
    ensures Preimage(parts + [last]) == Preimage(parts) + BigEndian32(|last|) + AsBytes(last)
  {
    if parts == [] {
      assert Preimage([last]) == BigEndian32(|last|) + AsBytes(last) + Preimage([]);
    } else {
      assert (parts + [last])[1..] == parts[1..] + [last];
      PreimageSnoc(parts[1..], last);
    }
  }

  /** The loop that grows the buffer part by part. */
  method BuildPreimage(task: Task) returns (preimage: seq<nat>)
    ensures preimage == RetryDigest(task)
  {
    var parts := [task.rpId, Text(task.metadata)] + Sort(MemberKeys(task.members));
    preimage := [];
    for i := 0 to |parts|
      invariant preimage == Preimage(parts[..i])
    {
      preimage := preimage + BigEndian32(|parts[i]|);
      preimage := preimage + AsBytes(parts[i]);
      PreimageSnoc(parts[..i], parts[i]);
      assert parts[..i + 1] == parts[..i] + [parts[i]];
    }
    assert parts[..|parts|] == parts;
  }

  lemma {:induction false} BigEndianRecomposes(n: nat)
    requires n < TWO_32
    ensures var d := BigEndian32(n); n == 0x100_0000 * d[0] + 0x1_0000 * d[1] + 256 * d[2] + d[3]
  {
    var q1 := n / 256;
    var q2 := q1 / 256;
    var q3 := q2 / 256;
    assert n / 0x1_0000 == q2 && n / 0x100_0000 == q3 && q3 < 256;
  }

  lemma {:induction false} BigEndianInjective(m: nat, n: nat)
    requires m < TWO_32 && n < TWO_32 && BigEndian32(m) == BigEndian32(n)
    ensures m == n
  {
    BigEndianRecomposes(m);
    BigEndianRecomposes(n);
  }

  lemma {:induction false} BytesInjective(a: string, b: string)
    requires AsBytes(a) == AsBytes(b)
    ensures a == b
  {
    assert |AsBytes(a)| == |a| && |AsBytes(b)| == |b|;
    forall i | 0 <= i < |a| ensures a[i] == b[i] {
      assert AsBytes(a)[i] == AsBytes(b)[i];
    }
  }

  predicate Short(parts: seq<string>) {
    forall part | part in parts :: |part| < TWO_32
  }

  lemma {:induction false} PreimageInjective(a: seq<string>, b: seq<string>)
    requires Short(a) && Short(b) && Preimage(a) == Preimage(b)
    ensures a == b
  {
    if a != [] && b != [] {
      var x, y := Preimage(a), Preimage(b);
      assert x[..4] == BigEndian32(|a[0]|) && y[..4] == BigEndian32(|b[0]|);
      BigEndianInjective(|a[0]|, |b[0]|);
      var n := 4 + |a[0]|;
      assert x[4..n] == AsBytes(a[0]) && y[4..n] == AsBytes(b[0]);
      BytesInjective(a[0], b[0]);
      assert x[n..] == Preimage(a[1..]) && y[n..] == Preimage(b[1..]);
      PreimageInjective(a[1..], b[1..]);
      assert a == [a[0]] + a[1..] && b == [b[0]] + b[1..];
    }
  }

  /** Two registers coalesce exactly when rpId, metadata and the multiset of lower-cased member
      keys agree: nothing can be moved across the boundary of two parts. */
  lemma {:induction false} RetryDigestBinds(a: Task, b: Task)
    requires Short(Parts(a)) && Short(Parts(b))
    ensures RetryDigest(a) == RetryDigest(b) <==>
            && a.rpId == b.rpId && Text(a.metadata) == Text(b.metadata)
            && multiset(MemberKeys(a.members)) == multiset(MemberKeys(b.members))
  {
    var x, y := MemberKeys(a.members), MemberKeys(b.members);
    SortSorts(x);
    SortSorts(y);
    if RetryDigest(a) == RetryDigest(b) {
      PreimageInjective(Parts(a), Parts(b));
      assert Parts(a)[0] == Parts(b)[0] && Parts(a)[1] == Parts(b)[1] && Parts(a)[2..] == Parts(b)[2..];
      assert Sort(x) == Sort(y);
    }
    if multiset(x) == multiset(y) { SortedIsUnique(Sort(x), Sort(y)); }
  }
}
