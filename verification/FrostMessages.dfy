/**
 The messages of the FROST relay protocol, the static configuration every party
 shares, and the check a signer applies to a message before processing it.

 Values computed by the threshold-signature library are symbolic: a commitment,
 a share set or a nonce is identified by the key it belongs to and by the
 generation in which its owner drew it, that is, by how often the owner's
 polynomials (or nonces) had been drawn before.
 */
module FrostMessages {

  import opened Options
  import opened Results

  datatype Commitment = Commitment(partyId: nat, generation: nat)

  datatype EncryptedShares = EncryptedShares(keyId: nat, generation: nat)

  datatype PublicNonce = PublicNonce(keyId: nat, generation: nat)

  /** What a signer computes for a signature-share request: its secret nonce
      generation and the message and lists it was given. */
  datatype SignatureShares = SignatureShares(
    signerId: nat,
    generation: nat,
    message: seq<nat>,
    signerIds: seq<nat>,
    keyIds: seq<nat>,
    nonces: seq<PublicNonce>)

  datatype DkgStatus = Success | Failure

  datatype NonceResponse = NonceResponse(
    dkgId: nat,
    signId: nat,
    signNonceId: nat,
    signerId: nat,
    keyIds: seq<nat>,
    nonces: seq<PublicNonce>)

  datatype SignatureShareRequest = SignatureShareRequest(
    dkgId: nat,
    signId: nat,
    correlationId: nat,
    nonceResponses: seq<NonceResponse>,
    message: seq<nat>)

  datatype Message =
    | DkgBegin(dkgId: nat)
    | DkgPrivateBegin(dkgId: nat)
    | DkgEnd(dkgId: nat, signerId: nat, status: DkgStatus)
    | DkgPublicEnd(dkgId: nat, signerId: nat, status: DkgStatus)
    | DkgPublicShare(dkgId: nat, dkgPublicId: nat, partyId: nat, publicShare: Commitment)
    | DkgPrivateShares(dkgId: nat, keyId: nat, privateShares: EncryptedShares)
    | NonceRequest(dkgId: nat, signId: nat, signNonceId: nat)
    | NonceReply(response: NonceResponse)
    | SignShareRequest(request: SignatureShareRequest)
    | SignShareResponse(dkgId: nat, signId: nat, correlationId: nat, signerId: nat, signatureShares: SignatureShares)

  const COORDINATOR: nat := 0

  /** A message with the identity whose private key signed it: `COORDINATOR` or
      a signer id, which start from 1. */
  datatype Packet = Packet(msg: Message, signedBy: nat)

  /** `signerKeyIds` lists the 1-based key ids of each signer; `keyOwner` is the
      table of key-id public keys, read as the identity that owns the key. */
  datatype Config = Config(
    totalSigners: nat,
    totalKeys: nat,
    signerKeyIds: map<nat, seq<nat>>,
    keyOwner: map<nat, nat>)
  {
    predicate IsSigner(i: nat) {
      1 <= i <= totalSigners
    }

    /** At least one signer, and the signers' key lists partition the keys. */
    ghost predicate Valid() {
      && totalSigners >= 1
      && |keyOwner| == totalKeys
      && 0 !in keyOwner
      && (forall i {:trigger i in signerKeyIds} {:trigger IsSigner(i)} :: i in signerKeyIds <==> IsSigner(i))
      && (forall p | p in keyOwner :: IsSigner(keyOwner[p]) && p in signerKeyIds[keyOwner[p]])
      && (forall i, p {:trigger p in signerKeyIds[i]} | i in signerKeyIds && p in signerKeyIds[i] ::
            p in keyOwner && keyOwner[p] == i)
    }
  }

  function Signers(n: nat): (s: set<nat>)
    ensures forall i :: i in s <==> 1 <= i <= n
    ensures |s| == n
  {
    if n == 0 then {} else Signers(n - 1) + {n}
  }

  /** Whether a signer lets a received packet through: the signature must verify
      under the key of the party the message claims to come from, which must be
      a known one. Private shares carry 0-based key ids. */
  predicate VerifyMsg(c: Config, p: Packet) {
    match p.msg
    case DkgBegin(_) => p.signedBy == COORDINATOR
    case DkgPrivateBegin(_) => p.signedBy == COORDINATOR
    case NonceRequest(_, _, _) => p.signedBy == COORDINATOR
    case SignShareRequest(_) => p.signedBy == COORDINATOR
    case DkgEnd(_, signerId, _) => c.IsSigner(signerId) && p.signedBy == signerId
    case DkgPublicEnd(_, signerId, _) => c.IsSigner(signerId) && p.signedBy == signerId
    case NonceReply(response) => c.IsSigner(response.signerId) && p.signedBy == response.signerId
    case SignShareResponse(_, _, _, signerId, _) => c.IsSigner(signerId) && p.signedBy == signerId
    case DkgPublicShare(_, _, partyId, _) => partyId in c.keyOwner && p.signedBy == c.keyOwner[partyId]
    case DkgPrivateShares(_, keyId, _) => keyId + 1 in c.keyOwner && p.signedBy == c.keyOwner[keyId + 1]
  }
}
