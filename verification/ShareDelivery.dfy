/**
 Delivery of the private shares: what `dkg_private_begin` seals for every key is
 what `dkg_ended` opens for the keys a signer owns. The cryptographic primitives
 are parameters; their laws are hypotheses of the lemmas that need them.
 */
module ShareDelivery {
  import opened Options
  import opened Results
  import opened FrostMessages

  type Bytes = seq<nat>
  type Scalar = nat
  type Point = nat

  const NONCE_SIZE: nat := 12

  /** `Scalar::new()` */
  const ZERO: Scalar := 0

  /** The ASCII bytes of "DH_SHARED_SECRET_KEY/". */
  const SECRET_PREFIX: Bytes := [68, 72, 95, 83, 72, 65, 82, 69, 68, 95, 83, 69, 67, 82, 69, 84, 95, 75, 69, 89, 47]

  datatype Primitives = Primitives(
    publicKey: Scalar -> Point,
    multiply: (Scalar, Point) -> Point,
    compress: Point -> Bytes,
    hash: Bytes -> Bytes,
    seal: (Bytes, Bytes, Bytes) -> Bytes,
    unseal: (Bytes, Bytes, Bytes) -> Option<Bytes>,
    toBytes: Scalar -> Bytes,
    fromBytes: Bytes -> Option<Scalar>)
  {
    /** Multiplication by a scalar commutes, sealing is undone by the same key and
        nonce, and scalars survive their encoding. */
    ghost predicate Lawful() {
      && (forall a: Scalar, b: Scalar :: multiply(a, publicKey(b)) == multiply(b, publicKey(a)))
      && (forall key, nonce, data :: unseal(key, nonce, seal(key, nonce, data)) == Some(data))
      && (forall s: Scalar :: fromBytes(toBytes(s)) == Some(s))
    }

    function SharedSecret(privateKey: Scalar, other: Point): Bytes {
      hash(SECRET_PREFIX + compress(multiply(privateKey, other)))
    }

    function Encrypt(key: Bytes, data: Bytes, nonce: Bytes): Bytes {
      nonce + seal(key, nonce, data)
    }

    /** Slicing off the nonce of a shorter input aborts. */
    function Decrypt(key: Bytes, data: Bytes): Result<Bytes, DecryptError> {
      if |data| < NONCE_SIZE then Err(TooShort)
      else match unseal(key, data[..NONCE_SIZE], data[NONCE_SIZE..])
        case None => Err(Rejected)
        case Some(plain) => Ok(plain)
    }
  }

  datatype DecryptError = TooShort | Rejected

  /** What a received entry decodes to for one of the signer's own keys. */
  datatype Entry = Share(value: Scalar) | Invalid | Abort

  /** `keyIds` is the table of 1-based key ids' public keys; `src` is 0-based. */
  function OpenEntry(p: Primitives, privateKey: Scalar, keyIds: map<nat, Point>, src: nat, sealed: Bytes): Entry {
    if src + 1 !in keyIds then Abort
    else match p.Decrypt(p.SharedSecret(privateKey, keyIds[src + 1]), sealed)
      case Err(TooShort) => Abort
      case Err(Rejected) => Invalid
      case Ok(plain) =>
        match p.fromBytes(plain)
        case None => Invalid
        case Some(s) => Share(s)
  }

  /** Entries for other signers' keys are kept as zero. */
  function EntryFor(p: Primitives, privateKey: Scalar, keyIds: map<nat, Point>, own: set<nat>,
                    src: nat, dst: nat, sealed: Bytes): Entry {
    if dst in own then OpenEntry(p, privateKey, keyIds, src, sealed) else Share(ZERO)
  }

  function OpenedFrom(p: Primitives, privateKey: Scalar, keyIds: map<nat, Point>, own: set<nat>,
                      src: nat, entries: map<nat, Bytes>): map<nat, Scalar> {
    map dst | dst in entries && EntryFor(p, privateKey, keyIds, own, src, dst, entries[dst]).Share? ::
      EntryFor(p, privateKey, keyIds, own, src, dst, entries[dst]).value
  }

  predicate SomeEntry(p: Primitives, privateKey: Scalar, keyIds: map<nat, Point>, own: set<nat>,
                      src: nat, entries: map<nat, Bytes>, e: Entry) {
    exists dst | dst in entries :: EntryFor(p, privateKey, keyIds, own, src, dst, entries[dst]) == e
  }

  /** What is sealed cannot be opened under the key, or is no scalar. */
  predicate Unreadable(p: Primitives, key: Bytes, sealed: Bytes)
    requires |sealed| >= 12
  {
    match p.unseal(key, sealed[..12], sealed[12..])
    case None => true
    case Some(plain) => p.fromBytes(plain) == None
  }

  /** When a source's entries abort the call, when they are invalid, and what they open to: only
      the entries for own keys are looked at. */
  lemma EntriesMean(p: Primitives, privateKey: Scalar, keyIds: map<nat, Point>, own: set<nat>, src: nat, entries: map<nat, Bytes>)
    ensures SomeEntry(p, privateKey, keyIds, own, src, entries, Abort) <==>
            exists dst | dst in entries :: dst in own && (src + 1 !in keyIds || |entries[dst]| < 12)
    ensures src + 1 in keyIds ==>
              (SomeEntry(p, privateKey, keyIds, own, src, entries, Invalid) <==>
               exists dst | dst in entries ::
                 dst in own && |entries[dst]| >= 12 && Unreadable(p, p.SharedSecret(privateKey, keyIds[src + 1]), entries[dst]))
    ensures src + 1 !in keyIds ==> !SomeEntry(p, privateKey, keyIds, own, src, entries, Invalid)
    ensures var found := OpenedFrom(p, privateKey, keyIds, own, src, entries);
            forall dst | dst in entries ::
              if dst !in own then dst in found && found[dst] == 0
              else dst in found <==>
                   && src + 1 in keyIds && |entries[dst]| >= 12
                   && !Unreadable(p, p.SharedSecret(privateKey, keyIds[src + 1]), entries[dst])
  {
    forall dst | dst in entries
      ensures var e := EntryFor(p, privateKey, keyIds, own, src, dst, entries[dst]);
              && (e == Abort <==> dst in own && (src + 1 !in keyIds || |entries[dst]| < 12))
              && (e == Invalid <==>
                    && dst in own && src + 1 in keyIds && |entries[dst]| >= 12
                    && Unreadable(p, p.SharedSecret(privateKey, keyIds[src + 1]), entries[dst]))
              && (dst !in own ==> e == Share(0))
    {
    }
  }

  /** What a signer hands to the secret computation, or the sources it reports. */
  datatype DkgOutcome =
    | Compute(shares: map<nat, map<nat, Scalar>>)
    | InvalidShares(sources: seq<nat>)
    | Aborted

  /** Opens one source's entries, noting the source once per invalid entry. */
  method OpenSource(p: Primitives, privateKey: Scalar, keyIds: map<nat, Point>, own: set<nat>,
                    src: nat, entries: map<nat, Bytes>)
    returns (found: map<nat, Scalar>, invalid: seq<nat>, aborted: bool)
    ensures aborted <==> SomeEntry(p, privateKey, keyIds, own, src, entries, Abort)
    ensures !aborted ==> found == OpenedFrom(p, privateKey, keyIds, own, src, entries)
    ensures !aborted ==> (invalid != [] <==> SomeEntry(p, privateKey, keyIds, own, src, entries, Invalid))
    ensures forall k | k in invalid :: k == src
  {
    found, invalid, aborted := map[], [], false;
    var todo := entries.Keys;
    while todo != {}
      invariant todo <= entries.Keys && !aborted
      invariant forall dst | dst in entries.Keys - todo :: !EntryFor(p, privateKey, keyIds, own, src, dst, entries[dst]).Abort?
      invariant found == map dst | dst in entries.Keys - todo && EntryFor(p, privateKey, keyIds, own, src, dst, entries[dst]).Share? ::
                  EntryFor(p, privateKey, keyIds, own, src, dst, entries[dst]).value
      invariant invalid != [] <==> exists dst | dst in entries.Keys - todo :: EntryFor(p, privateKey, keyIds, own, src, dst, entries[dst]) == Invalid
      invariant forall k | k in invalid :: k == src
      decreases todo
    {
      var dst :| dst in todo;
      ghost var done := entries.Keys - todo;
      if dst in own {
        match OpenEntry(p, privateKey, keyIds, src, entries[dst])
        case Share(s) => found := found[dst := s];
        case Invalid => invalid := invalid + [src];
        case Abort =>
          aborted := true;
          return;
      } else {
        found := found[dst := ZERO];
      }
      todo := todo - {dst};
      assert entries.Keys - todo == done + {dst};
    }
    assert entries.Keys - todo == entries.Keys;
  }

  /** All sources in turn; the secrets are computed only if nothing was invalid. */
  method DkgEnded(p: Primitives, privateKey: Scalar, keyIds: map<nat, Point>, own: set<nat>, shares: map<nat, map<nat, Bytes>>)
    returns (outcome: DkgOutcome)
    ensures outcome.Aborted? <==> exists src | src in shares :: SomeEntry(p, privateKey, keyIds, own, src, shares[src], Abort)
    ensures outcome.InvalidShares? ==>
              outcome.sources != [] && forall k ::
                k in outcome.sources <==> k in shares && SomeEntry(p, privateKey, keyIds, own, k, shares[k], Invalid)
    ensures outcome.Compute? ==> !exists src | src in shares :: SomeEntry(p, privateKey, keyIds, own, src, shares[src], Invalid)
    ensures outcome.Compute? ==>
              outcome.shares == map src | src in shares :: OpenedFrom(p, privateKey, keyIds, own, src, shares[src])
  {
    hide SomeEntry, OpenedFrom;
    var decrypted, invalid := map[], [];
    var todo := shares.Keys;
    while todo != {}
      invariant todo <= shares.Keys
      invariant forall src | src in shares.Keys - todo :: !SomeEntry(p, privateKey, keyIds, own, src, shares[src], Abort)
      invariant forall src | src in shares.Keys - todo :: SomeEntry(p, privateKey, keyIds, own, src, shares[src], Invalid) ==> src in invalid
      invariant forall k | k in invalid :: k in shares && SomeEntry(p, privateKey, keyIds, own, k, shares[k], Invalid)
      invariant decrypted == map src | src in shares.Keys - todo :: OpenedFrom(p, privateKey, keyIds, own, src, shares[src])
      decreases todo
    {
      var src :| src in todo;
      ghost var done := shares.Keys - todo;
      var found, bad, aborted := OpenSource(p, privateKey, keyIds, own, src, shares[src]);
      if aborted {
        return Aborted;
      }
      decrypted := decrypted[src := found];
      assert bad != [] ==> bad[0] in bad;
      invalid := invalid + bad;
      todo := todo - {src};
      assert shares.Keys - todo == done + {src};
    }
    assert shares.Keys - todo == shares.Keys;
    if invalid == [] {
      outcome := Compute(decrypted);
    } else {
      assert invalid[0] in invalid;
      outcome := InvalidShares(invalid);
    }
  }

  function SealEntry(p: Primitives, privateKey: Scalar, other: Point, share: Scalar, nonce: Bytes): Bytes {
    p.Encrypt(p.SharedSecret(privateKey, other), p.toBytes(share), nonce)
  }

  /** What the owner of a key sends: its share for every key, sealed for that key's
      owner. `nonces` are the random nonces drawn. */
  function SealedFor(p: Primitives, privateKey: Scalar, keyIds: map<nat, Point>, plain: map<nat, Scalar>, nonces: map<nat, Bytes>): map<nat, Bytes>
    requires forall dst | dst in plain :: dst + 1 in keyIds && dst in nonces
  {
    map dst | dst in plain :: SealEntry(p, privateKey, keyIds[dst + 1], plain[dst], nonces[dst])
  }

  /** A sealed entry is its nonce and behind it the share, sealed under the hash of the domain
      name and the compressed Diffie-Hellman point. */
  lemma SealedIs(p: Primitives, privateKey: Scalar, other: Point, share: Scalar, nonce: Bytes)
    ensures |SECRET_PREFIX| == 21 && forall k :: 0 <= k < 21 ==> SECRET_PREFIX[k] == "DH_SHARED_SECRET_KEY/"[k] as int
    ensures SealEntry(p, privateKey, other, share, nonce)
         == nonce + p.seal(p.hash(SECRET_PREFIX + p.compress(p.multiply(privateKey, other))), nonce, p.toBytes(share))
  {
    var text := "DH_SHARED_SECRET_KEY/";
    assert |text| == 21;
    forall k | 0 <= k < 21
      ensures SECRET_PREFIX[k] == text[k] as int
    {
    }
  }

  method SealShares(p: Primitives, privateKey: Scalar, keyIds: map<nat, Point>, plain: map<nat, Scalar>, nonces: map<nat, Bytes>)
    returns (sealed: map<nat, Bytes>)
    requires forall dst | dst in plain :: dst + 1 in keyIds && dst in nonces
    ensures sealed == SealedFor(p, privateKey, keyIds, plain, nonces)
  {
    sealed := map[];
    var todo := plain.Keys;
    while todo != {}
      invariant todo <= plain.Keys && sealed.Keys == plain.Keys - todo
      invariant forall dst | dst in sealed :: sealed[dst] == SealEntry(p, privateKey, keyIds[dst + 1], plain[dst], nonces[dst])
      decreases todo
    {
      var dst :| dst in todo;
      sealed := sealed[dst := SealEntry(p, privateKey, keyIds[dst + 1], plain[dst], nonces[dst])];
      todo := todo - {dst};
    }
  }

  /** The parties: each signer's private key, and the table of key-id public keys
      that every party was configured with. */
  ghost predicate KeysMatch(p: Primitives, c: Config, privateKeys: map<nat, Scalar>, keyIds: map<nat, Point>) {
    && c.Valid()
    && (forall i | c.IsSigner(i) :: i in privateKeys)
    && keyIds.Keys == c.keyOwner.Keys
    && forall k | k in keyIds :: c.IsSigner(c.keyOwner[k]) && c.keyOwner[k] in privateKeys && keyIds[k] == p.publicKey(privateKeys[c.keyOwner[k]])
  }

  /** The 0-based key ids of a signer. */
  function OwnKeys(c: Config, i: nat): set<nat> {
    set k | k in c.keyOwner && k > 0 && c.keyOwner[k] == i :: (k - 1) as nat
  }

  /** One sealed share opens to the share, for the signer that owns its key. */
  lemma ShareOpens(p: Primitives, c: Config, privateKeys: map<nat, Scalar>, keyIds: map<nat, Point>,
                   src: nat, dst: nat, share: Scalar, nonce: Bytes)
    requires p.Lawful() && KeysMatch(p, c, privateKeys, keyIds)
    requires src + 1 in keyIds && dst + 1 in keyIds && |nonce| == NONCE_SIZE
    ensures OpenEntry(p, privateKeys[c.keyOwner[dst + 1]], keyIds, src,
                      SealEntry(p, privateKeys[c.keyOwner[src + 1]], keyIds[dst + 1], share, nonce))
         == Share(share)
  {
    var a, b := privateKeys[c.keyOwner[src + 1]], privateKeys[c.keyOwner[dst + 1]];
    assert p.multiply(a, p.publicKey(b)) == p.multiply(b, p.publicKey(a));
    var key := p.SharedSecret(a, keyIds[dst + 1]);
    assert key == p.SharedSecret(b, keyIds[src + 1]);
    var sealed := p.Encrypt(key, p.toBytes(share), nonce);
    assert sealed[..NONCE_SIZE] == nonce && sealed[NONCE_SIZE..] == p.seal(key, nonce, p.toBytes(share));
  }

  /** What signer `i` should get from a source: the shares of its own keys. */
  function Due(c: Config, i: nat, plain: map<nat, Scalar>): map<nat, Scalar> {
    map dst | dst in plain :: if dst + 1 in c.keyOwner && c.keyOwner[dst + 1] == i then plain[dst] else ZERO
  }

  lemma EntryDelivered(p: Primitives, c: Config, privateKeys: map<nat, Scalar>, keyIds: map<nat, Point>, i: nat,
                       src: nat, dst: nat, share: Scalar, nonce: Bytes)
    requires p.Lawful() && KeysMatch(p, c, privateKeys, keyIds) && c.IsSigner(i)
    requires src + 1 in keyIds && dst + 1 in keyIds && |nonce| == NONCE_SIZE
    ensures EntryFor(p, privateKeys[i], keyIds, OwnKeys(c, i), src, dst,
                     SealEntry(p, privateKeys[c.keyOwner[src + 1]], keyIds[dst + 1], share, nonce))
         == Share(if c.keyOwner[dst + 1] == i then share else ZERO)
  {
    hide SealEntry, OpenEntry;
    if c.keyOwner[dst + 1] == i {
      assert (dst + 1) - 1 in OwnKeys(c, i);
      ShareOpens(p, c, privateKeys, keyIds, src, dst, share, nonce);
    } else {
      assert dst !in OwnKeys(c, i);
    }
  }

  lemma SourceDelivered(p: Primitives, c: Config, privateKeys: map<nat, Scalar>, keyIds: map<nat, Point>, i: nat,
                        src: nat, plain: map<nat, Scalar>, nonces: map<nat, Bytes>)
    requires p.Lawful() && KeysMatch(p, c, privateKeys, keyIds) && c.IsSigner(i) && src + 1 in keyIds
    requires forall d | d in plain :: d + 1 in keyIds && d in nonces && |nonces[d]| == NONCE_SIZE
    ensures var entries := SealedFor(p, privateKeys[c.keyOwner[src + 1]], keyIds, plain, nonces);
            && !SomeEntry(p, privateKeys[i], keyIds, OwnKeys(c, i), src, entries, Abort)
            && !SomeEntry(p, privateKeys[i], keyIds, OwnKeys(c, i), src, entries, Invalid)
            && OpenedFrom(p, privateKeys[i], keyIds, OwnKeys(c, i), src, entries) == Due(c, i, plain)
  {
    hide EntryFor, SealEntry, Config.Valid, KeysMatch, Primitives.Lawful, OwnKeys;
    ConfiguredKeys(p, c, privateKeys, keyIds);
    var own := OwnKeys(c, i);
    var entries := SealedFor(p, privateKeys[c.keyOwner[src + 1]], keyIds, plain, nonces);
    forall dst | dst in plain
      ensures EntryFor(p, privateKeys[i], keyIds, own, src, dst, entries[dst])
           == Share(if c.keyOwner[dst + 1] == i then plain[dst] else ZERO)
    {
      EntryDelivered(p, c, privateKeys, keyIds, i, src, dst, plain[dst], nonces[dst]);
    }
  }

  lemma ConfiguredKeys(p: Primitives, c: Config, privateKeys: map<nat, Scalar>, keyIds: map<nat, Point>)
    requires KeysMatch(p, c, privateKeys, keyIds)
    ensures keyIds.Keys == c.keyOwner.Keys
    ensures forall k | k in keyIds :: c.keyOwner[k] in privateKeys
    ensures forall i | c.IsSigner(i) :: i in privateKeys
  {
  }

  /** Every source's shares, for the keys it knows of, were sealed by the owner of its
      key with nonces of the right size. */
  ghost predicate WellSealed(p: Primitives, c: Config, privateKeys: map<nat, Scalar>, keyIds: map<nat, Point>, s: nat,
                             plain: map<nat, Scalar>, nonces: map<nat, Bytes>, sealed: map<nat, Bytes>)
    requires KeysMatch(p, c, privateKeys, keyIds)
  {
    ConfiguredKeys(p, c, privateKeys, keyIds);
    && s + 1 in keyIds
    && (forall d | d in plain :: d + 1 in keyIds && d in nonces && |nonces[d]| == NONCE_SIZE)
    && sealed == SealedFor(p, privateKeys[c.keyOwner[s + 1]], keyIds, plain, nonces)
  }

  /** Delivery: if every source's shares were sealed by the owner of its key, what
      `DkgEnded` may report at signer `i` is neither an abort nor an invalid source,
      and what it computes with is exactly the shares generated for the signer's own
      keys, and zero for all others. */
  lemma SharesDelivered(p: Primitives, c: Config, privateKeys: map<nat, Scalar>, keyIds: map<nat, Point>, i: nat,
                        plain: map<nat, map<nat, Scalar>>, nonces: map<nat, map<nat, Bytes>>, shares: map<nat, map<nat, Bytes>>)
    requires p.Lawful() && KeysMatch(p, c, privateKeys, keyIds) && c.IsSigner(i)
    requires shares.Keys == plain.Keys == nonces.Keys
    requires forall s | s in plain :: WellSealed(p, c, privateKeys, keyIds, s, plain[s], nonces[s], shares[s])
    ensures forall s | s in shares ::
              && !SomeEntry(p, privateKeys[i], keyIds, OwnKeys(c, i), s, shares[s], Abort)
              && !SomeEntry(p, privateKeys[i], keyIds, OwnKeys(c, i), s, shares[s], Invalid)
    ensures (map s | s in shares :: OpenedFrom(p, privateKeys[i], keyIds, OwnKeys(c, i), s, shares[s]))
         == (map s | s in plain :: Due(c, i, plain[s]))
  {
    hide SomeEntry, OpenedFrom, Due, Primitives.Lawful, Config.Valid;
    ConfiguredKeys(p, c, privateKeys, keyIds);
    forall s | s in shares
      ensures !SomeEntry(p, privateKeys[i], keyIds, OwnKeys(c, i), s, shares[s], Abort)
      ensures !SomeEntry(p, privateKeys[i], keyIds, OwnKeys(c, i), s, shares[s], Invalid)
      ensures OpenedFrom(p, privateKeys[i], keyIds, OwnKeys(c, i), s, shares[s]) == Due(c, i, plain[s])
    {
      SourceDelivered(p, c, privateKeys, keyIds, i, s, plain[s], nonces[s]);
    }
  }
}
