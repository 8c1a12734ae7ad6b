/**
 * The task vocabulary (p256-registrar/src/task.rs), the task's identity digest and the
 * registry as an append-only set of writes.
 *
 * A hex field is represented by what parse_hex_bytes makes of it: the byte string it spells
 * (written as lower-case digits, so case and the 0x prefix are gone), or text that is no hex at
 * all. keccak256 over an encoded tuple is a constructor applied to that tuple: injective, and
 * nothing else is known of it.
 */
module Tasks {
  import opened Basics
  import opened ChainErrors

  datatype Status = Pending | Done | Failed {
    predicate Terminal() { Done? || Failed? }
  }

  datatype Kind = Register | Refer

  datatype Hex = Bytes(digits: string) | Unparseable(text: string)

  datatype Member = Member(publicKey: Hex, attestation: Hex) {
    predicate Parses() { publicKey.Bytes? && attestation.Bytes? }
  }

  datatype Digest =
    | UnitDigest(rpId: string, metadata: Hex, group: Hex, members: seq<Member>)
    | PairDigest(group: Hex, member: Hex)

  /** What a failure record says; the store prefixes it with its class. */
  datatype Note =
    | ReconciliationUnavailable
    | WriteFailed(error: ChainError)
    | CannotEncode
    | RevertedTwice

  datatype StoredError = Deferred(note: Note) | Exhausted(note: Note) | Poisoned(note: Note)

  datatype Task = Task(
    id: string,
    status: Status,
    kind: Kind,
    rpId: string,
    metadata: Hex,
    contentHash: Digest,
    groupKey: Hex,
    members: seq<Member>,
    txHash: Option<string>,
    onChainId: Option<nat>,
    error: Option<StoredError>,
    retries: nat,
    createdAt: int,
    admitted: bool)

  /** content_hash_for: the contract's content hash for a register, (group, key) for a refer. */
  function ContentHash(task: Task): Option<Digest> {
    if !task.groupKey.Bytes? || !task.metadata.Bytes? || exists m :: m in task.members && !m.Parses() then None
    else match task.kind
      case Register => Some(UnitDigest(task.rpId, task.metadata, task.groupKey, task.members))
      case Refer =>
        if task.members == [] then None else Some(PairDigest(task.groupKey, task.members[0].publicKey))
  }

  /** Two records of the same chain write; only the bookkeeping fields may differ. */
  predicate SameWrite(a: Task, b: Task) {
    && a.id == b.id && a.kind == b.kind && a.rpId == b.rpId && a.metadata == b.metadata
    && a.contentHash == b.contentHash && a.groupKey == b.groupKey && a.members == b.members
  }

  // ── The registry ─────────────────────────────────────────────────────────

  /** What the contract remembers: registered content hashes and (group, key) references. */
  datatype Chain = Chain(units: set<Digest>, references: set<(Hex, Hex)>)

  predicate Grows(before: Chain, after: Chain) {
    before.units <= after.units && before.references <= after.references
  }

  predicate Referenced(chain: Chain, group: Hex, member: Hex) {
    group.Bytes? && member.Bytes? && (group, member) in chain.references
  }

  /** The task's own write is on the chain. */
  predicate OnChain(chain: Chain, task: Task) {
    match task.kind
    case Register => ContentHash(task).Some? && ContentHash(task).value in chain.units
    case Refer => task.members != [] && Referenced(chain, task.groupKey, task.members[0].publicKey)
  }
}
