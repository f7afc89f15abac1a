/** lib/bls_hsm.h: the operations on the two parallel arrays, the counter and the storage. */
module Keystore {
  import opened Options
  import opened Words
  import opened Hex
  import opened KeystoreModel

  type Pubkey = s: seq<Byte> | |s| == 48 witness ZeroBytes(48)
  type Signature = s: seq<Byte> | |s| == 96 witness ZeroBytes(96)

  /** The blst functions in use, abstract: compressed public key of a scalar, compressed
      signature, verification of compressed values, the point at infinity. */
  datatype Bls = Bls(
    decode: Decoder,
    pubkey: Scalar -> Pubkey,
    sign: (Scalar, seq<Byte>) -> Signature,
    verify: (seq<Byte>, seq<Byte>, seq<Byte>) -> bool,
    infinity: Pubkey)

  /** Correctness of BLS: a signature verifies under its own key, the zero key excepted. */
  ghost predicate BlsCorrect(b: Bls) {
    forall sk: Scalar, m: seq<Byte> :: b.pubkey(sk) != b.infinity ==> b.verify(b.pubkey(sk), m, b.sign(sk, m))
  }

  /** The 96 characters stored for a secret. */
  function PubText(b: Bls, sk: Scalar): (r: seq<char>)
    ensures |r| == 96 && AllHex(r)
  {
    HexOf(b.pubkey(sk))
  }

  // ----- message and hex text parsing (lib/common.c)

  /** A leading 0x is skipped. */
  function Body(s: seq<char>): seq<char> {
    if |s| >= 2 && s[0] == '0' && s[1] == 'x' then s[2..] else s
  }

  lemma BodyIsRest(s: seq<char>)
    ensures Body("0x" + s) == s
    ensures !("0x" <= s) ==> Body(s) == s
  {
  }

  /** parse_hex: the offset of the digits, -1 for a wrong length, -2 for a wrong character. */
  method ParseHex(s: seq<char>, len: nat) returns (offset: int)
    ensures |Body(s)| != len ==> offset == -1
    ensures |Body(s)| == len ==> offset == (if AllHex(Body(s)) then |s| - len else -2)
    ensures offset >= 0 ==> offset <= |s| && s[offset..] == Body(s)
  {
    offset := if |s| >= 2 && s[0] == '0' && s[1] == 'x' then
                if |s| == len + 2 then 2 else -1
              else if |s| == len then 0 else -1;
    if offset >= 0 {
      var bad := CharCheck(s[offset..], len);
      if bad { offset := -2; }
    }
  }

  /** char_chk: true when some character is not hexadecimal. */
  method CharCheck(s: seq<char>, len: nat) returns (bad: bool)
    requires len <= |s|
    ensures bad == !AllHex(s[..len])
  {
    bad := false;
    var i := 0;
    while i < len && !bad
      invariant i <= len && (!bad ==> AllHex(s[..i])) && (bad ==> !AllHex(s[..len]))
    {
      if !IsHexDigit(s[i]) {
        bad := true;
        assert s[..len][i] == s[i];
      }
      i := i + 1;
    }
  }

  /** Parsed bytes of a hex string of the given length; an empty one counts as an error. */
  method ParseBytes(s: seq<char>, len: nat) returns (r: Option<seq<Byte>>)
    ensures r == if |Body(s)| == len && AllHex(Body(s)) && len > 0 then Some(DecodeHex(Body(s))) else None
  {
    var offset := ParseHex(s, len);
    if offset < 0 { return None; }
    var room := len / 2 + len % 2;
    var buf := new Byte[room](_ => 0);
    var n := Hex2Bin(s[offset..], buf, room);
    r := if n == 0 then None else Some(buf[..n]);
  }

  /** A key of 96 digits, a message of at least one and a signature of 192. */
  predicate Readable(pk: seq<char>, msg: seq<char>, sig: seq<char>) {
    && |Body(pk)| == 96 && AllHex(Body(pk))
    && |Body(msg)| > 0 && AllHex(Body(msg))
    && |Body(sig)| == 192 && AllHex(Body(sig))
  }

  /** verify_sign: accepted, refused, or not readable. */
  method VerifySign(b: Bls, pk: seq<char>, msg: seq<char>, sig: seq<char>) returns (r: int)
    ensures r == 11 <==> Readable(pk, msg, sig) && b.verify(DecodeHex(Body(pk)), DecodeHex(Body(msg)), DecodeHex(Body(sig)))
    ensures r == 12 <==> Readable(pk, msg, sig) && !b.verify(DecodeHex(Body(pk)), DecodeHex(Body(msg)), DecodeHex(Body(sig)))
    ensures r == -1 <==> !Readable(pk, msg, sig)
  {
    var pkBin := ParseBytes(pk, 96);
    if pkBin.None? { return -1; }
    var msgBin := ParseBytes(msg, |Body(msg)|);
    if msgBin.None? { return -1; }
    var sigBin := ParseBytes(sig, 192);
    if sigBin.None? { return -1; }
    r := if b.verify(pkBin.value, msgBin.value, sigBin.value) then 11 else 12;
  }

  // ----- the store

  class Store {
    const bls: Bls
    const secrets: array<Scalar>
    const pubs: array<seq<char>>
    var size: nat
    var disk: Disk
    /** Every storage write so far, in order. */
    ghost var log: seq<Write>

    ghost function St(): State
      reads this, secrets
    {
      State(secrets[..], size, disk)
    }

    /** Slot i of the public keys belongs to slot i of the secrets. */
    ghost predicate Aligned()
      reads this, secrets, pubs
    {
      && secrets.Length == pubs.Length == CAPACITY && size <= CAPACITY
      && forall i :: 0 <= i < size ==> pubs[i] == PubText(bls, secrets[i])
    }

    ghost predicate Ok()
      reads this, secrets, pubs
    {
      Aligned() && KeystoreModel.Valid(St())
    }

    /** Power on: memory is zero, storage is what it was. */
    constructor (b: Bls, d: Disk)
      ensures bls == b && disk == d && size == 0 && log == [] && fresh(secrets) && fresh(pubs)
      ensures secrets.Length == pubs.Length == CAPACITY && secrets[..] == Zeros(CAPACITY)
    {
      bls := b;
      secrets := new Scalar[CAPACITY](_ => ZERO);
      pubs := new seq<char>[CAPACITY](_ => []);
      size, disk, log := 0, d, [];
      new;
      assert secrets[..] == Zeros(CAPACITY);
    }

    /** init, right after power on; ok is its status. Storage is what a valid state left. */
    method Init() returns (ok: bool)
      requires secrets.Length == pubs.Length == CAPACITY && secrets[..] == Zeros(CAPACITY) && size == 0
      requires KeystoreModel.Valid(Restart(disk))
      modifies this`size, secrets, pubs
      ensures Ok() && St() == Restart(disk) && ok == BootOk(disk)
    {
      if UID_SIZE !in disk || !disk[UID_SIZE].SizeCell? { return true; }
      size := disk[UID_SIZE].n;
      if UID_KEYSTORE !in disk || !disk[UID_KEYSTORE].KeysCell? { return false; }
      var blob := disk[UID_KEYSTORE].keys;
      forall i | 0 <= i < size { secrets[i] := blob[i]; }
      assert secrets[..] == blob[..size] + Zeros(CAPACITY - size);
      RebuildPubs();
      return true;
    }

    /** The loop of init that derives the public keys. */
    method RebuildPubs()
      requires secrets.Length == pubs.Length == CAPACITY && size <= CAPACITY
      modifies pubs
      ensures Aligned()
    {
      for i := 0 to size
        invariant forall k :: 0 <= k < i ==> pubs[k] == PubText(bls, secrets[k])
      {
        pubs[i] := HexOf(bls.pubkey(secrets[i]));
      }
    }

    method Put(uid: nat, cell: Cell)
      modifies this`disk, this`log
      ensures disk == old(disk)[uid := cell] && log == old(log) + [Write.Put(uid, cell)]
    {
      disk := disk[uid := cell];
      log := log + [Write.Put(uid, cell)];
    }

    method Remove(uid: nat)
      modifies this`disk, this`log
      ensures disk == old(disk) - {uid} && log == old(log) + [Write.Remove(uid)]
    {
      disk := disk - {uid};
      log := log + [Write.Remove(uid)];
    }

    /** add_sk followed by the public key of the new slot, as both callers do. */
    method AddPair(sk: Scalar, ghost op: Op)
      requires Ok() && Appended(bls.decode, St(), op) == Some(sk)
      modifies this`size, this`disk, this`log, secrets, pubs
      ensures Ok() && St() == Step(bls.decode, old(St()), op)
      ensures log == old(log) + Writes(bls.decode, old(St()), op)
    {
      ghost var s := St();
      AppendWrites(bls.decode, s, op);
      StepValid(bls.decode, s, op);
      secrets[size] := sk;
      assert secrets[..] == s.mem[s.n := sk];
      size := size + 1;
      Put(UID_KEYSTORE, KeysCell(secrets[..]));
      Put(UID_SIZE, SizeCell(size));
      pubs[size - 1] := HexOf(bls.pubkey(sk));
    }

    /** secure_keygen; the drawn scalar is None when no randomness could be had. */
    method SecureKeygen(drawn: Option<Scalar>) returns (index: int)
      requires Ok()
      modifies this`size, this`disk, this`log, secrets, pubs
      ensures Ok() && St() == Step(bls.decode, old(St()), Generate(drawn))
      ensures log == old(log) + Writes(bls.decode, old(St()), Generate(drawn))
      ensures index == if old(size) >= 10 then -6 else if drawn.None? then -3 else old(size)
    {
      if size >= CAPACITY { return -6; }
      if drawn.None? { return -3; }
      AddPair(drawn.value, Generate(drawn));
      index := size - 1;
    }

    /** The search of import_sk: is the secret stored already? */
    method Stored(sk: Scalar) returns (found: bool)
      requires Ok()
      ensures found == (sk in Keys(St()))
    {
      found := false;
      for i := 0 to size
        invariant forall k :: 0 <= k < i ==> secrets[k] != sk
      {
        var differs := false;
        var x := 0;
        while x < 32 && !differs
          invariant x <= 32 && (!differs ==> secrets[i][..x] == sk[..x]) && (differs ==> secrets[i] != sk)
        {
          if secrets[i][x] != sk[x] { differs := true; }
          x := x + 1;
        }
        if !differs {
          assert secrets[i] == secrets[i][..32] && sk == sk[..32];
          assert sk == Keys(St())[i];
          return true;
        }
      }
    }

    /** import_sk: appends exactly when there is room, the text is hex and the secret is new. The
        code of a duplicate, 4, is also the index of the fifth key. */
    method ImportSk(hex: seq<char>) returns (code: int)
      requires Ok()
      modifies this`size, this`disk, this`log, secrets, pubs
      ensures Ok() && St() == Step(bls.decode, old(St()), Import(hex))
      ensures log == old(log) + Writes(bls.decode, old(St()), Import(hex))
      ensures code == if old(size) >= 10 then -6 else if |hex| < 64 || !AllHex(hex[..64]) then -7
                      else if bls.decode(DecodeHex(hex[..64])) in old(Keys(St())) then 4 else old(size)
    {
      if size >= CAPACITY { return -6; }
      if |hex| < 64 { return -7; }
      var bin := new Byte[32](_ => 0);
      var n := Hex2Bin(hex[..64], bin, 32);
      if n == 0 { return -7; }
      var sk := bls.decode(bin[..]);
      assert bin[..32] == bin[..];
      var found := Stored(sk);
      if found { return 4; }
      AddPair(sk, Import(hex));
      code := size - 1;
    }

    /** The storage half of reset (lines 601-606). */
    method ClearStorage()
      modifies this`disk, this`log
      ensures disk == ApplyAll(old(disk), [Write.Put(UID_SIZE, SizeCell(0))] + Removals(size))
      ensures log == old(log) + ([Write.Put(UID_SIZE, SizeCell(0))] + Removals(size))
    {
      ghost var first := [Write.Put(UID_SIZE, SizeCell(0))];
      Put(UID_SIZE, SizeCell(0));
      assert first[..0] == [] && first + Removals(0) == first;
      for i := 0 to size
        invariant disk == ApplyAll(old(disk), first + Removals(i)) && log == old(log) + (first + Removals(i))
      {
        ghost var ws := first + Removals(i + 1);
        assert ws[..|ws| - 1] == first + Removals(i) && ws[|ws| - 1] == Write.Remove(i + 1);
        Remove(i + 1);
      }
    }

    /** reset */
    method ResetAll()
      requires Ok()
      modifies this`size, this`disk, this`log, secrets, pubs
      ensures Ok() && size == 0 && St() == Step(bls.decode, old(St()), Reset)
      ensures log == old(log) + Writes(bls.decode, old(St()), Reset)
    {
      ghost var s := St();
      forall i | 0 <= i < CAPACITY { secrets[i] := ZERO; }
      assert secrets[..] == Zeros(CAPACITY);
      ClearStorage();
      size := 0;
      forall i | 0 <= i < CAPACITY { pubs[i] := []; }
      StepValid(bls.decode, s, Reset);
    }

    /** pk_in_keystore: the first slot whose 96 characters stand at the offset, or -1. The text
        ends in a null character, which no stored key contains. */
    method PkInKeystore(text: seq<char>, offset: nat) returns (index: int)
      requires Ok() && offset <= |text|
      ensures -1 <= index < size
      ensures index >= 0 ==> pubs[index] <= text[offset..]
      ensures forall k :: 0 <= k < (if index == -1 then size else index) ==> !(pubs[k] <= text[offset..])
    {
      var pk := text[offset..];
      for i := 0 to size
        invariant forall k :: 0 <= k < i ==> !(pubs[k] <= pk)
      {
        var row := pubs[i];
        var differs := false;
        var j := 0;
        while j < 96 && !differs
          invariant j <= 96 && (!differs ==> row[..j] <= pk) && (differs ==> !(row <= pk))
        {
          if j >= |pk| || pk[j] != row[j] { differs := true; }
          j := j + 1;
        }
        if !differs {
          assert row == row[..96];
          return i;
        }
      }
      return -1;
    }

    /** get_key */
    method GetKey(index: nat) returns (r: Option<seq<char>>)
      requires Ok()
      ensures r == if index < size then Some(PubText(bls, secrets[index])) else None
    {
      r := if index >= size then None else Some(pubs[index]);
    }

    /** sign_pk: a signature exactly for texts that start with a stored key. Its test for a bad
        message never holds, so that it then signs what the buffer held before. */
    method SignPk(pk: seq<char>, msg: seq<char>, stale: seq<Byte>) returns (r: Option<seq<char>>)
      requires Ok() && |stale| == Room(Body(msg))
      ensures r.Some? <==> exists i :: 0 <= i < size && PubText(bls, secrets[i]) <= pk
      ensures r.Some? ==> exists i :: 0 <= i < size && PubText(bls, secrets[i]) <= pk
                                      && r.value == HexOf(bls.sign(secrets[i], if AllHex(Body(msg)) then DecodeHex(Body(msg)) else stale))
    {
      var index := PkInKeystore(pk, 0);
      assert pk[0..] == pk;
      if index == -1 { return None; }
      assert PubText(bls, secrets[index]) <= pk;
      var bin := ParseBytes(msg, |Body(msg)|);
      var bytes := if bin.Some? then bin.value else stale;
      assert Body(msg) == [] ==> stale == [] == DecodeHex([]);
      r := Some(HexOf(bls.sign(secrets[index], bytes)));
    }
  }

  lemma HexHasNoPrefix(bs: seq<Byte>)
    ensures Body(HexOf(bs)) == HexOf(bs)
  {
    var s := HexOf(bs);
    if |s| >= 2 { assert IsHexDigit(s[1]); }
  }

  /** Signing with any stored key gives a signature that verify_sign accepts, if BLS is correct
      and the key is not the point at infinity. */
  method SignThenVerify(store: Store, slot: nat, msg: seq<char>) returns (verdict: int)
    requires store.Ok() && slot < store.size && Body(msg) != [] && AllHex(Body(msg))
    requires BlsCorrect(store.bls) && store.bls.pubkey(store.secrets[slot]) != store.bls.infinity
    ensures verdict == 11
  {
    var b := store.bls;
    var pk := store.GetKey(slot);
    var sig := store.SignPk(pk.value, msg, DecodeHex(Body(msg)));
    ghost var i :| 0 <= i < store.size && PubText(b, store.secrets[i]) <= pk.value
                   && sig.value == HexOf(b.sign(store.secrets[i], DecodeHex(Body(msg))));
    assert PubText(b, store.secrets[i]) == pk.value;
    verdict := VerifySign(b, pk.value, msg, sig.value);
    ghost var sk := store.secrets[i];
    HexHasNoPrefix(b.pubkey(sk));
    HexHasNoPrefix(b.sign(sk, DecodeHex(Body(msg))));
    DecodeHexOf(b.pubkey(sk));
    DecodeHexOf(b.pubkey(store.secrets[slot]));
    DecodeHexOf(b.sign(sk, DecodeHex(Body(msg))));
    assert b.verify(b.pubkey(sk), DecodeHex(Body(msg)), b.sign(sk, DecodeHex(Body(msg))));
  }
}
