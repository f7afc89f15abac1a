/** getDomain and computeSigningRoot of lib/merkleization.h, and the dispatch getSR of
    lib/httpRemote.h: the signing root of a request. */
module SigningRoot {
  import opened Options
  import opened Words
  import opened MerkleTree
  import opened Hex
  import opened Merkleization
  import opened Containers
  import opened Blocks
  import opened BlockStandard

  const PROPOSER: Bytes4 := [0, 0, 0, 0]
  const ATTESTER: Bytes4 := [1, 0, 0, 0]
  const SELECTION_PROOF: Bytes4 := [5, 0, 0, 0]
  const AGGREGATE_AND_PROOF: Bytes4 := [6, 0, 0, 0]

  /** Bytes4 as an SSZ chunk. */
  function VersionChunk(v: Bytes4): Chunk {
    var b: seq<Byte> := v;
    b + ZeroBytes(28)
  }

  /** compute_domain: the type, then the fork data root without its last four bytes. */
  function Domain(H: HashFn, typ: Bytes4, fork: ForkInfo): Chunk {
    var t: seq<Byte>, r: seq<Byte> := typ, ContainerRoot(H, [VersionChunk(fork.currentVersion), fork.genesisRoot]);
    t + r[..28]
  }

  /** compute_signing_root */
  function SigningRootOf(H: HashFn, root: Chunk, typ: Bytes4, fork: ForkInfo): Chunk {
    ContainerRoot(H, [root, Domain(H, typ, fork)])
  }

  lemma TwoFields(H: HashFn, a: Chunk, b: Chunk)
    ensures ContainerRoot(H, [a, b]) == HashPair(H, a, b)
  {
    SmallDepths();
    assert ZeroPadded([a, b], 1) == [a, b];
    RootOfTwo(H, a, b);
  }

  /** The two strings hashed: version and genesis root for the domain, object root and domain. */
  lemma SigningRootBytes(H: HashFn, root: Chunk, typ: Bytes4, fork: ForkInfo)
    ensures var fields: seq<Byte> := H(fork.currentVersion + ZeroBytes(28) + fork.genesisRoot);
            SigningRootOf(H, root, typ, fork) == H(root + (typ + fields[..28]))
  {
    TwoFields(H, VersionChunk(fork.currentVersion), fork.genesisRoot);
    TwoFields(H, root, Domain(H, typ, fork));
  }

  /** getDomain: 4 bytes of type and 28 bytes of the root copied into the 32-byte buffer. */
  method GetDomain(m: Merkleizer, fork: ForkInfo, typ: Bytes4) returns (domain: Chunk)
    ensures domain == Domain(m.H, typ, fork)
  {
    var version := new Byte[32](_ => 0);
    forall k | 0 <= k < 4 { version[k] := fork.currentVersion[k]; }
    assert version[..] == VersionChunk(fork.currentVersion);
    var root: seq<Byte> := HashPair(m.H, version[..], fork.genesisRoot);
    TwoFields(m.H, VersionChunk(fork.currentVersion), fork.genesisRoot);
    var buf := new Byte[32](_ => 0);
    forall k | 0 <= k < 4 { buf[k] := typ[k]; }
    forall k | 0 <= k < 28 { buf[4 + k] := root[k]; }
    domain := buf[..];
    assert domain == Domain(m.H, typ, fork);
  }

  datatype Message = BlockMsg(b: Block) | AttestationMsg(a: AttestationData) | SlotMsg(slot: U64) | AggregateMsg(g: AggregateAndProof)

  /** The request: its type and the objects it holds. */
  datatype Request = Request(typ: string, block: Option<Block>, attestation: Option<AttestationData>, slot: Option<U64>,
                             aggregate: Option<AggregateAndProof>, fork: ForkInfo)

  /** A type is spelled in lower or in upper case. */
  predicate IsBlock(typ: string) { typ == "block" || typ == "BLOCK" }
  predicate IsAttestation(typ: string) { typ == "attestation" || typ == "ATTESTATION" }
  predicate IsSlot(typ: string) { typ == "aggregation_slot" || typ == "AGGREGATION_SLOT" }
  predicate IsAggregate(typ: string) { typ == "aggregate_and_proof" || typ == "AGGREGATE_AND_PROOF" }

  predicate Known(typ: string) { IsBlock(typ) || IsAttestation(typ) || IsSlot(typ) || IsAggregate(typ) }

  /** The object the type names. */
  function Announced(req: Request): Option<Message> {
    if IsBlock(req.typ) then
      match req.block case None => None case Some(b) => Some(BlockMsg(b))
    else if IsAttestation(req.typ) then
      match req.attestation case None => None case Some(a) => Some(AttestationMsg(a))
    else if IsSlot(req.typ) then
      match req.slot case None => None case Some(slot) => Some(SlotMsg(slot))
    else if IsAggregate(req.typ) then
      match req.aggregate case None => None case Some(g) => Some(AggregateMsg(g))
    else None
  }

  /** The eight spellings, and what each names. */
  lemma Dispatch(req: Request)
    ensures Known(req.typ) <==> req.typ in {"block", "BLOCK", "attestation", "ATTESTATION", "aggregation_slot", "AGGREGATION_SLOT",
                                            "aggregate_and_proof", "AGGREGATE_AND_PROOF"}
    ensures req.typ in {"block", "BLOCK"} && req.block.Some? ==> Announced(req) == Some(BlockMsg(req.block.value))
    ensures req.typ in {"attestation", "ATTESTATION"} && req.attestation.Some? ==> Announced(req) == Some(AttestationMsg(req.attestation.value))
    ensures req.typ in {"aggregation_slot", "AGGREGATION_SLOT"} && req.slot.Some? ==> Announced(req) == Some(SlotMsg(req.slot.value))
    ensures req.typ in {"aggregate_and_proof", "AGGREGATE_AND_PROOF"} && req.aggregate.Some? ==>
              Announced(req) == Some(AggregateMsg(req.aggregate.value))
  {
    assert "block"[0] == 'b' && "BLOCK"[0] == 'B' && "attestation"[1] == 't' && "ATTESTATION"[1] == 'T';
    assert "aggregation_slot"[8] == 'i' && "aggregate_and_proof"[8] == 'e' && "AGGREGATION_SLOT"[8] == 'I' && "AGGREGATE_AND_PROOF"[8] == 'E';
  }

  /** A block has no more attestations than its limit max. */
  predicate Fits(msg: Message, max: nat) { msg.BlockMsg? ==> Within(|msg.b.body.attestations|, max) }

  /** The domain types of the specification. */
  predicate Stamps(msg: Message, typ: Bytes4) {
    && (msg.BlockMsg? ==> typ == [0, 0, 0, 0])
    && (msg.AttestationMsg? ==> typ == [1, 0, 0, 0])
    && (msg.SlotMsg? ==> typ == [5, 0, 0, 0])
    && (msg.AggregateMsg? ==> typ == [6, 0, 0, 0])
  }

  /** htr is the root of the message as computed when row 0 holds P, and Q is row 0 afterwards;
      the attestations of a block are hashed to roots, with these rows 0. */
  ghost predicate Outcome(H: HashFn, P: Chunk, msg: Message, rows: seq<Chunk>, roots: seq<Chunk>, max: nat, htr: Chunk, Q: Chunk)
    requires Fits(msg, max)
  {
    match msg
    case BlockMsg(b) =>
      && HashesAll(H, P, b.body.attestations, rows, roots)
      && htr == BlockRoot(H, P, b, roots, rows[|roots|], max) && Q == RowAfterList(H, roots, rows[|roots|])
    case AttestationMsg(a) => htr == DataRoot(H, P, a) && Q == P
    case SlotMsg(slot) => htr == U64Chunk(slot) && Q == P
    case AggregateMsg(g) => htr == AggRoot(H, P, g) && Q == PadAfterBits(H, P, g.aggregate)
  }

  method HtrWholeBlock(m: Merkleizer, b: Block, max: nat) returns (htr: Chunk, ghost rows: seq<Chunk>, ghost roots: seq<Chunk>)
    requires m.Valid() && Within(|b.body.attestations|, max)
    modifies m.zerohashes
    ensures m.Valid() && Outcome(m.H, old(m.zerohashes[0]), BlockMsg(b), rows, roots, max, htr, m.zerohashes[0])
  {
    rows, roots := HashList(m.H, m.zerohashes[0], b.body.attestations, |b.body.attestations|);
    htr := HtrBlock(m, b, max, rows, roots);
  }

  /** The outcomes of the other three hashers. */
  lemma OutcomeOf(H: HashFn, P: Chunk, msg: Message, max: nat, htr: Chunk, Q: Chunk)
    requires !msg.BlockMsg?
    requires msg.AttestationMsg? ==> htr == DataRoot(H, P, msg.a) && Q == P
    requires msg.SlotMsg? ==> htr == U64Chunk(msg.slot) && Q == P
    requires msg.AggregateMsg? ==> htr == AggRoot(H, P, msg.g) && Q == PadAfterBits(H, P, msg.g.aggregate)
    ensures Outcome(H, P, msg, [], [], max, htr, Q)
  {
  }

  /** The branches of getSR; None for an unknown type. */
  method HtrRequest(m: Merkleizer, req: Request, max: nat)
    returns (htr: Option<Chunk>, domain: Bytes4, ghost rows: seq<Chunk>, ghost roots: seq<Chunk>)
    requires m.Valid() && (Known(req.typ) ==> Announced(req).Some? && Fits(Announced(req).value, max))
    modifies m.zerohashes
    ensures m.Valid() && (htr.Some? <==> Known(req.typ)) && (htr.None? ==> m.zerohashes[0] == old(m.zerohashes[0]))
    ensures htr.Some? ==> Stamps(Announced(req).value, domain)
                          && Outcome(m.H, old(m.zerohashes[0]), Announced(req).value, rows, roots, max, htr.value, m.zerohashes[0])
  {
    rows, roots, domain := [], [], PROPOSER;
    var root;
    ghost var P := m.zerohashes[0];
    if req.typ == "block" || req.typ == "BLOCK" {
      root, rows, roots := HtrWholeBlock(m, req.block.value, max);
    } else if req.typ == "attestation" || req.typ == "ATTESTATION" {
      root := HtrAttDat(m, req.attestation.value);
      domain := ATTESTER;
      OutcomeOf(m.H, P, AttestationMsg(req.attestation.value), max, root, m.zerohashes[0]);
    } else if req.typ == "aggregation_slot" || req.typ == "AGGREGATION_SLOT" {
      root := HtrU64(req.slot.value);
      domain := SELECTION_PROOF;
      OutcomeOf(m.H, P, SlotMsg(req.slot.value), max, root, m.zerohashes[0]);
    } else if req.typ == "aggregate_and_proof" || req.typ == "AGGREGATE_AND_PROOF" {
      root := HtrAggAndProof(m, req.aggregate.value);
      domain := AGGREGATE_AND_PROOF;
      OutcomeOf(m.H, P, AggregateMsg(req.aggregate.value), max, root, m.zerohashes[0]);
    } else {
      return None, domain, rows, roots;
    }
    htr := Some(root);
  }

  /** getSR: a signing root exactly for the known types. A known type comes with its object. */
  method GetSR(m: Merkleizer, req: Request, max: nat)
    returns (r: Option<Chunk>, ghost htr: Chunk, ghost typ: Bytes4, ghost rows: seq<Chunk>, ghost roots: seq<Chunk>)
    requires m.Valid() && (Known(req.typ) ==> Announced(req).Some? && Fits(Announced(req).value, max))
    modifies m.zerohashes
    ensures m.Valid() && (r.Some? <==> Known(req.typ)) && (r.None? ==> m.zerohashes[0] == old(m.zerohashes[0]))
    ensures r.Some? ==> var msg := Announced(req).value;
                        && Outcome(m.H, old(m.zerohashes[0]), msg, rows, roots, max, htr, m.zerohashes[0])
                        && r.value == SigningRootOf(m.H, htr, typ, req.fork)
    ensures r.Some? ==> var msg := Announced(req).value;
                        && (msg.BlockMsg? ==> typ == [0, 0, 0, 0]) && (msg.AttestationMsg? ==> typ == [1, 0, 0, 0])
                        && (msg.SlotMsg? ==> typ == [5, 0, 0, 0]) && (msg.AggregateMsg? ==> typ == [6, 0, 0, 0])
  {
    var root, domainType;
    root, domainType, rows, roots := HtrRequest(m, req, max);
    htr, typ := ZERO, domainType;
    if root.None? { return None, htr, typ, rows, roots; }
    htr := root.value;
    var domain := GetDomain(m, req.fork, domainType);
    r := Some(HashPair(m.H, root.value, domain));
    TwoFields(m.H, htr, domain);
  }

  // ----- when it is the signing root of the standard

  /** refs are the SSZ roots of the attestations of a block; bit lists are within their limits. */
  ghost predicate Legal(H: HashFn, msg: Message, refs: seq<Chunk>, max: nat) {
    match msg
    case BlockMsg(b) => Within(|refs|, max) && RefAll(H, b.body.attestations, refs)
    case AggregateMsg(g) => BitsFit(g.aggregate)
    case _ => true
  }

  /** The root the SSZ specification gives the message. */
  ghost function SszRoot(H: HashFn, msg: Message, refs: seq<Chunk>, max: nat): Chunk
    requires Legal(H, msg, refs, max)
  {
    match msg
    case BlockMsg(b) => SszBlock(H, b, refs, max)
    case AttestationMsg(a) => SszData(H, a)
    case SlotMsg(slot) => U64Chunk(slot)
    case AggregateMsg(g) => SszAggregate(H, g)
  }

  /** Checkable before the call. */
  ghost predicate SoundMessage(msg: Message) {
    match msg
    case BlockMsg(b) => SoundList(b.body.attestations)
    case AggregateMsg(g) => Sound(g.aggregate)
    case _ => true
  }

  /** No strings collide that are hashed for the message, by the code and by the standard. */
  ghost predicate MessageFree(H: HashFn, msg: Message, rows: seq<Chunk>, roots: seq<Chunk>, refs: seq<Chunk>, max: nat)
    requires Legal(H, msg, refs, max)
  {
    match msg
    case BlockMsg(b) => |roots| == |refs| < |rows| && BlockFree(H, b, roots, rows[|roots|], refs, max)
    case AggregateMsg(g) => AggFree(H, g)
    case _ => true
  }

  /** From an intact table the root getSR computes is the SSZ root of the message exactly when
      the message is sound; the other direction unless strings hashed for the two collide or one
      hashes to zero. */
  lemma MessageRootIsStandardIff(H: HashFn, msg: Message, rows: seq<Chunk>, roots: seq<Chunk>, refs: seq<Chunk>, max: nat, htr: Chunk, Q: Chunk)
    requires Fits(msg, max) && Outcome(H, ZERO, msg, rows, roots, max, htr, Q) && Legal(H, msg, refs, max)
    ensures SoundMessage(msg) ==> htr == SszRoot(H, msg, refs, max)
    ensures MessageFree(H, msg, rows, roots, refs, max) && htr == SszRoot(H, msg, refs, max) ==> SoundMessage(msg)
  {
    match msg {
      case BlockMsg(b) => BlockIsSszIff(H, b, rows, roots, refs, max);
      case AttestationMsg(a) => DataIsSsz(H, a);
      case SlotMsg(_) =>
      case AggregateMsg(g) => AggregateIsSszIff(H, g);
    }
  }

  /** Signing roots agree exactly when object roots and domains do, unless the two strings
      hashed for them collide. */
  lemma SigningRootBinds(H: HashFn, a: Chunk, s: Bytes4, f: ForkInfo, b: Chunk, t: Bytes4, g: ForkInfo)
    requires CollisionFree(H, {Join(a, Domain(H, s, f)), Join(b, Domain(H, t, g))})
    ensures SigningRootOf(H, a, s, f) == SigningRootOf(H, b, t, g) <==> a == b && s == t && Domain(H, s, f) == Domain(H, t, g)
  {
    var x, y := Domain(H, s, f), Domain(H, t, g);
    TwoFields(H, a, x);
    TwoFields(H, b, y);
    if SigningRootOf(H, a, s, f) == SigningRootOf(H, b, t, g) {
      PairBinds(H, {Join(a, x), Join(b, y)}, a, x, b, y);
    }
    assert s == x[..4] && t == y[..4];
  }

  predicate SameKind(m: Message, n: Message) {
    m.BlockMsg? == n.BlockMsg? && m.AttestationMsg? == n.AttestationMsg? && m.SlotMsg? == n.SlotMsg?
  }

  /** A signature for one kind of message is none for another: whatever their roots and forks,
      their signing roots differ, unless the two strings hashed for them collide. */
  lemma KindsSeparate(H: HashFn, m: Message, a: Chunk, s: Bytes4, f: ForkInfo, n: Message, b: Chunk, t: Bytes4, g: ForkInfo)
    requires !SameKind(m, n) && Stamps(m, s) && Stamps(n, t)
    requires CollisionFree(H, {Join(a, Domain(H, s, f)), Join(b, Domain(H, t, g))})
    ensures SigningRootOf(H, a, s, f) != SigningRootOf(H, b, t, g)
  {
    SigningRootBinds(H, a, s, f, b, t, g);
    assert s[0] != t[0];
  }
}
