/**
 * Chain-error vocabulary and its classification (p256-registrar/src/protocol.rs).
 *
 * The classification only ever asks which of a fixed list of texts a message contains, so a
 * message is represented by the set of those texts found in it.
 */
module ChainErrors {

  datatype Mark =
    | RevertWord                       // "revert", any case
    | GroupKeyAlreadyUsed              // the name, or its selector 0x10eafb1a
    | AlreadyReferenced                // the name, or its selector 0x40709c5d
    | GroupNotFound                    // the name, or its selector 0xdec308b4
    | InvalidProofName                 // "InvalidProof"
    | InvalidProofSelector             // 0x09bde339
    | Underpriced                      // "underpriced", any case
    | ReplacementTransaction           // "replacement transaction", any case
    | AlreadyKnown                     // "already known", any case

  datatype ChainError =
    | Unavailable
    | Reverted(marks: set<Mark>)
    | InvalidResponse
    | MissingSigner
    | Rejected(marks: set<Mark>)

  datatype ErrorClass = AlreadyExists | Transient | Poison

  /** A selector or the word itself makes a text read as an EVM revert. */
  predicate IsRevert(error: ChainError) {
    (error.Reverted? || error.Rejected?)
    && (RevertWord in error.marks || InvalidProofSelector in error.marks)
  }

  predicate IsGroupNotFound(error: ChainError) {
    (error.Reverted? || error.Rejected?) && GroupNotFound in error.marks
  }

  predicate IsAlreadyExists(error: ChainError) {
    (error.Reverted? || error.Rejected?)
    && (GroupKeyAlreadyUsed in error.marks || AlreadyReferenced in error.marks)
  }

  predicate IsTransient(error: ChainError) {
    match error
    case Unavailable | InvalidResponse => true
    case Rejected(_) => !IsRevert(error) && !IsAlreadyExists(error) && InvalidProofName !in error.marks
    case Reverted(_) | MissingSigner => false
  }

  predicate IsReplacementUnderpriced(error: ChainError) {
    (error.Reverted? || error.Rejected?)
    && (Underpriced in error.marks || ReplacementTransaction in error.marks || AlreadyKnown in error.marks)
  }

  function Classify(error: ChainError): ErrorClass {
    if IsAlreadyExists(error) then AlreadyExists
    else if IsGroupNotFound(error) || IsTransient(error) then Transient
    else Poison
  }

  /** The class of an error from what its text says: a used group key or an existing reference is a
      duplicate; a missing group, an outage and a refusal that reads neither as a revert nor as a bad
      proof may pass; everything else is for good. */
  lemma {:induction false} ClassifiesExactly(error: ChainError)
    ensures var marks := if error.Reverted? || error.Rejected? then error.marks else {};
            var duplicate := GroupKeyAlreadyUsed in marks || AlreadyReferenced in marks;
            && (Classify(error) == AlreadyExists <==> duplicate)
            && (Classify(error) == Transient <==>
                  && !duplicate
                  && (|| GroupNotFound in marks || error.Unavailable? || error.InvalidResponse?
                      || (error.Rejected? && marks !! {RevertWord, InvalidProofSelector, InvalidProofName})))
  {}
}
