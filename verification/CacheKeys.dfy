/** The read queries and the text under which each is cached (p256-index-cf/src/edge.rs:848-882). */
module CacheKeys {
  import opened Arithmetic
  import opened Basics

  datatype Page = Page(page: nat, size: nat, descending: bool)

  datatype Query =
    | EntriesByKey(key: string, at: Page)
    | Entry(entryId: nat)
    | Unit(unitId: nat, at: Page)
    | Group(key: string, at: Page)
    | StatsTotal
    | Sites(at: Page)
    | Keys(key: string, at: Page)

  // ── Printing numbers ─────────────────────────────────────────────────────

  function Digit(d: nat): char
    requires d < 10
  {
    ('0' as int + d) as char
  }

  function Decimal(n: nat): (r: string)
    ensures r != []
  {
    if n < 10 then [Digit(n)] else Decimal(n / 10) + [Digit(n % 10)]
  }

  function Flag(b: bool): string { if b then "true" else "false" }

  function Suffix(at: Page): string { ":" + Decimal(at.page) + ":" + Decimal(at.size) + ":" + Flag(at.descending) }

  function KeyText(q: Query): string {
    match q
    case EntriesByKey(key, at) => "query:key:" + key + Suffix(at)
    case Entry(id) => "query:entry:" + Decimal(id)
    case Unit(id, at) => "query:unit:" + Decimal(id) + Suffix(at)
    case Group(key, at) => "query:group:" + key + Suffix(at)
    case StatsTotal => "stats:total"
    case Sites(at) => "stats:rpIds" + Suffix(at)
    case Keys(rpId, at) => "stats:keys:" + rpId + Suffix(at)
  }

  lemma {:induction false} DigitsDiffer(a: nat, b: nat)
    requires a < 10 && b < 10 && Digit(a) == Digit(b)
    ensures a == b
  {}

  /** Different numbers print differently. */
  lemma {:induction false} DecimalIsInjective(m: nat, n: nat)
    requires Decimal(m) == Decimal(n)
    ensures m == n
  {
    var a, b := Decimal(m), Decimal(n);
    assert a[|a| - 1] == Digit(m % 10) && b[|b| - 1] == Digit(n % 10);
    DigitsDiffer(m % 10, n % 10);
    if m >= 10 && n >= 10 {
      assert a[..|a| - 1] == Decimal(m / 10) && b[..|b| - 1] == Decimal(n / 10);
      DecimalIsInjective(m / 10, n / 10);
    }
  }

  // ── Parsing from the right ───────────────────────────────────────────────

  predicate NoColon(s: string) { forall i | 0 <= i < |s| :: s[i] != ':' }

  lemma {:induction false} DecimalHasNoColon(n: nat)
    ensures NoColon(Decimal(n))
  {
    if n >= 10 { DecimalHasNoColon(n / 10); }
  }

  function LastColonAt(s: string): int {
    if s == [] || s[|s| - 1] == ':' then |s| - 1 else LastColonAt(s[..|s| - 1])
  }

  lemma {:induction false} LastColonIs(a: string, x: string)
    requires NoColon(x)
    ensures LastColonAt(a + ":" + x) == |a|
  {
    if x == [] {
      assert a + ":" + x == a + ":";
    } else {
      assert (a + ":" + x)[..|a + ":" + x| - 1] == a + ":" + x[..|x| - 1];
      LastColonIs(a, x[..|x| - 1]);
    }
  }

  /** What follows the last colon, and what precedes it, can be told apart. */
  lemma {:induction false} LastColon(a: string, x: string, b: string, y: string)
    requires NoColon(x) && NoColon(y) && a + ":" + x == b + ":" + y
    ensures a == b && x == y
  {
    LastColonIs(a, x);
    LastColonIs(b, y);
    assert a == (a + ":" + x)[..|a|] && b == (b + ":" + y)[..|b|];
    assert x == (a + ":" + x)[|a| + 1..] && y == (b + ":" + y)[|b| + 1..];
  }

  lemma {:induction false} Cancel(prefix: string, a: string, b: string)
    requires prefix + a == prefix + b
    ensures a == b
  {
    assert a == (prefix + a)[|prefix|..] && b == (prefix + b)[|prefix|..];
  }

  lemma {:induction false} Regroup(a: string, x: string, y: string, z: string)
    ensures a + (":" + x + ":" + y + ":" + z) == a + ":" + x + ":" + y + ":" + z
  {}

  lemma {:induction false} FlagsDiffer(a: bool, b: bool)
    ensures NoColon(Flag(a)) && (Flag(a) == Flag(b) ==> a == b)
  {
    assert Flag(a)[0] == (if a then 't' else 'f') && Flag(b)[0] == (if b then 't' else 'f');
  }

  /** Three colon-free fields are read off the end of a text. */
  lemma {:induction false} ThreeFields(a: string, x: string, y: string, z: string, b: string, u: string, v: string, w: string)
    requires NoColon(x) && NoColon(y) && NoColon(z) && NoColon(u) && NoColon(v) && NoColon(w)
    requires a + ":" + x + ":" + y + ":" + z == b + ":" + u + ":" + v + ":" + w
    ensures a == b && x == u && y == v && z == w
  {
    LastColon(a + ":" + x + ":" + y, z, b + ":" + u + ":" + v, w);
    LastColon(a + ":" + x, y, b + ":" + u, v);
    LastColon(a, x, b, u);
  }

  lemma {:induction false} SuffixSplits(a: string, p: Page, b: string, q: Page)
    requires a + Suffix(p) == b + Suffix(q)
    ensures a == b && p == q
  {
    DecimalHasNoColon(p.page);
    DecimalHasNoColon(p.size);
    DecimalHasNoColon(q.page);
    DecimalHasNoColon(q.size);
    FlagsDiffer(p.descending, q.descending);
    FlagsDiffer(q.descending, p.descending);
    Regroup(a, Decimal(p.page), Decimal(p.size), Flag(p.descending));
    Regroup(b, Decimal(q.page), Decimal(q.size), Flag(q.descending));
    ThreeFields(a, Decimal(p.page), Decimal(p.size), Flag(p.descending), b, Decimal(q.page), Decimal(q.size), Flag(q.descending));
    DecimalIsInjective(p.page, q.page);
    DecimalIsInjective(p.size, q.size);
  }

  lemma {:induction false} KeyedSplits(prefix: string, a: string, p: Page, b: string, q: Page)
    requires prefix + a + Suffix(p) == prefix + b + Suffix(q)
    ensures a == b && p == q
  {
    SuffixSplits(prefix + a, p, prefix + b, q);
    Cancel(prefix, a, b);
  }

  // ── No two queries share a text ──────────────────────────────────────────

  function Mark(q: Query): (char, char) {
    match q
    case EntriesByKey(_, _) => ('q', 'k')
    case Entry(_) => ('q', 'e')
    case Unit(_, _) => ('q', 'u')
    case Group(_, _) => ('q', 'g')
    case StatsTotal => ('s', 't')
    case Sites(_) => ('s', 'r')
    case Keys(_, _) => ('s', 'k')
  }

  lemma {:induction false} TextShowsMark(q: Query)
    ensures |KeyText(q)| > 6 && (KeyText(q)[0], KeyText(q)[6]) == Mark(q)
  {}

  /** Whatever an rpId or a key contains, colons included, two different queries are cached under
      different texts. */
  lemma {:induction false} KeyTextIsInjective(a: Query, b: Query)
    requires KeyText(a) == KeyText(b)
    ensures a == b
  {
    TextShowsMark(a);
    TextShowsMark(b);
    match a
    case EntriesByKey(key, at) => KeyedSplits("query:key:", key, at, b.key, b.at);
    case Entry(id) =>
      Cancel("query:entry:", Decimal(id), Decimal(b.entryId));
      DecimalIsInjective(id, b.entryId);
    case Unit(id, at) =>
      KeyedSplits("query:unit:", Decimal(id), at, Decimal(b.unitId), b.at);
      DecimalIsInjective(id, b.unitId);
    case Group(key, at) => KeyedSplits("query:group:", key, at, b.key, b.at);
    case StatsTotal =>
    case Sites(at) => SuffixSplits("stats:rpIds", at, "stats:rpIds", b.at);
    case Keys(rpId, at) => KeyedSplits("stats:keys:", rpId, at, b.key, b.at);
  }

  // ── Pages ────────────────────────────────────────────────────────────────

  const U64: nat := 0x1_0000_0000_0000_0000

  /** The offset of a page in unguarded 64-bit arithmetic (p256-registrar/src/lookup.rs:572). */
  function Offset(at: Page): nat
    requires at.page >= 1
  {
    ((at.page - 1) * at.size) % U64
  }

  /** The page the shell computes back from it. */
  function PageBack(offset: nat, size: nat): nat
    requires size > 0
  {
    offset / size + 1
  }

  /** The page that is fetched is the page that was asked for exactly while the product fits. */
  lemma {:induction false} PageSurvivesExactly(at: Page)
    requires at.page >= 1 && at.size >= 1
    ensures PageBack(Offset(at), at.size) == at.page <==> (at.page - 1) * at.size < U64
  {
    var n, o := at.page - 1, Offset(at);
    assert o / at.size * at.size <= o < U64;
    if n * at.size < U64 {
      assert o == n * at.size;
      DivMod(o, n, 0, at.size);
    }
  }
}
