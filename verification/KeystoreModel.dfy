/** The keystore of lib/bls_hsm.h as a state machine over its secrets, its counter and the two
    storage cells that mirror them, with power cuts between any two storage writes. */
module KeystoreModel {
  import opened Options
  import opened Words
  import opened Hex

  type Scalar = Chunk

  const CAPACITY := 10
  const UID_KEYSTORE: nat := 1
  const UID_SIZE: nat := 11

  // ----- protected storage

  datatype Cell = SizeCell(n: int) | KeysCell(keys: seq<Scalar>)

  type Disk = map<nat, Cell>

  datatype Write = Put(uid: nat, cell: Cell) | Remove(uid: nat)

  function Apply(d: Disk, w: Write): Disk {
    match w case Put(uid, cell) => d[uid := cell] case Remove(uid) => d - {uid}
  }

  function ApplyAll(d: Disk, ws: seq<Write>): Disk {
    if ws == [] then d else Apply(ApplyAll(d, ws[..|ws| - 1]), ws[|ws| - 1])
  }

  /** What init finds in storage. */
  datatype Boot = Boot(n: int, loaded: Option<seq<Scalar>>)

  function Load(d: Disk): Boot {
    if UID_SIZE !in d || !d[UID_SIZE].SizeCell? then Boot(0, Some([]))
    else if UID_KEYSTORE !in d || !d[UID_KEYSTORE].KeysCell? then Boot(d[UID_SIZE].n, None)
    else Boot(d[UID_SIZE].n, Some(d[UID_KEYSTORE].keys))
  }

  // ----- states and operations

  /** The array of secrets, of which the first n are in use, and the storage. */
  datatype State = State(mem: seq<Scalar>, n: nat, disk: Disk)

  function Keys(s: State): seq<Scalar>
    requires s.n <= |s.mem|
  {
    s.mem[..s.n]
  }

  const FRESH := State(Zeros(CAPACITY), 0, map[])

  /** Storage agrees with memory: the size cell is the counter, the key cell has its keys. */
  ghost predicate Valid(s: State) {
    && |s.mem| == CAPACITY && s.n <= CAPACITY
    && (UID_SIZE in s.disk ==> s.disk[UID_SIZE] == SizeCell(s.n))
    && (UID_SIZE !in s.disk ==> s.n == 0)
    && (UID_KEYSTORE in s.disk ==> s.disk[UID_KEYSTORE].KeysCell? && |s.disk[UID_KEYSTORE].keys| == CAPACITY)
    && (s.n > 0 ==> UID_KEYSTORE in s.disk && s.disk[UID_KEYSTORE].keys[..s.n] == s.mem[..s.n])
  }

  /** Generate draws a scalar, or fails to; Import is given a string. */
  datatype Op = Generate(drawn: Option<Scalar>) | Import(hex: seq<char>) | Reset

  /** blst_scalar_from_bendian, left abstract. */
  type Decoder = seq<Byte> -> Scalar

  /** The secret in the first 64 characters of a string, if they are all there and hex. */
  function Secret(decode: Decoder, hex: seq<char>): Option<Scalar> {
    if |hex| >= 64 && AllHex(hex[..64]) then Some(decode(DecodeHex(hex[..64]))) else None
  }

  /** The scalar an operation appends, if it appends one. */
  function Appended(decode: Decoder, s: State, op: Op): Option<Scalar>
    requires s.n <= |s.mem|
  {
    if s.n >= CAPACITY then None
    else match op
      case Generate(drawn) => drawn
      case Import(hex) =>
        var sk := Secret(decode, hex);
        if sk.Some? && sk.value !in Keys(s) then sk else None
      case Reset => None
  }

  /** reset removes one uid per stored key, starting with the cell that holds them all. */
  function Removals(n: nat): (r: seq<Write>)
    ensures |r| == n && forall k :: 0 <= k < n ==> r[k] == Remove(k + 1)
  {
    if n == 0 then [] else Removals(n - 1) + [Remove(n)]
  }

  /** The storage writes of an operation, in order. */
  function Writes(decode: Decoder, s: State, op: Op): seq<Write>
    requires Valid(s)
  {
    match Appended(decode, s, op)
    case Some(sk) => [Put(UID_KEYSTORE, KeysCell(s.mem[s.n := sk])), Put(UID_SIZE, SizeCell(s.n + 1))]
    case None => if op.Reset? then [Put(UID_SIZE, SizeCell(0))] + Removals(s.n) else []
  }

  function Step(decode: Decoder, s: State, op: Op): State
    requires Valid(s)
  {
    var disk := ApplyAll(s.disk, Writes(decode, s, op));
    match Appended(decode, s, op)
    case Some(sk) => State(s.mem[s.n := sk], s.n + 1, disk)
    case None => if op.Reset? then State(Zeros(CAPACITY), 0, disk) else State(s.mem, s.n, disk)
  }

  /** Power comes back: memory is zero, then init reads the counter and that many keys. */
  function Restart(d: Disk): State {
    var b := Load(d);
    var n := if 0 <= b.n <= CAPACITY then b.n else 0;
    if b.loaded.Some? && |b.loaded.value| == CAPACITY
    then State(b.loaded.value[..n] + Zeros(CAPACITY - n), n, d)
    else State(Zeros(CAPACITY), n, d)
  }

  // ----- storage after a cut

  lemma RemoveNext(d: Disk, k: nat)
    requires k > 0
    ensures (map u | u in d && !(1 <= u <= k - 1) :: d[u]) - {k} == map u | u in d && !(1 <= u <= k) :: d[u]
  {
  }

  lemma {:induction false} ApplyRemovals(d: Disk, n: nat, k: nat)
    requires k <= n <= CAPACITY
    ensures ApplyAll(d, Removals(n)[..k]) == map u | u in d && !(1 <= u <= k) :: d[u]
    decreases k
  {
    var ws := Removals(n)[..k];
    if k == 0 {
      assert (map u | u in d && !(1 <= u <= 0) :: d[u]) == d;
    } else {
      ApplyRemovals(d, n, k - 1);
      assert ws[..k - 1] == Removals(n)[..k - 1] && ws[k - 1] == Remove(k);
      RemoveNext(d, k);
    }
  }

  lemma {:induction false} ApplyCons(d: Disk, w: Write, ws: seq<Write>)
    ensures ApplyAll(d, [w] + ws) == ApplyAll(Apply(d, w), ws)
    decreases |ws|
  {
    if ws == [] {
      assert [w] + ws == [w] && [w][..0] == [];
    } else {
      ApplyCons(d, w, ws[..|ws| - 1]);
      assert ([w] + ws)[..|ws|] == [w] + ws[..|ws| - 1];
    }
  }

  lemma AppendCut(decode: Decoder, s: State, op: Op, k: nat)
    requires Valid(s) && Appended(decode, s, op).Some? && k <= |Writes(decode, s, op)|
    ensures var r := Restart(ApplyAll(s.disk, Writes(decode, s, op)[..k]));
            Valid(r) && Keys(r) == if k < 2 then Keys(s) else Keys(Step(decode, s, op))
  {
    var ws, d := Writes(decode, s, op), s.disk;
    var d1 := Apply(d, ws[0]);
    var d2 := Apply(d1, ws[1]);
    assert ws[..0] == [] && ws[..1][..0] == [] && ws[..2] == ws && ws[..2][..1] == ws[..1];
    assert ApplyAll(d, ws[..1]) == d1 && ApplyAll(d, ws[..2]) == d2;
    var cut := if k == 0 then d else if k == 1 then d1 else d2;
    assert ApplyAll(d, ws[..k]) == cut;
  }

  lemma ResetCut(decode: Decoder, s: State, k: nat)
    requires Valid(s) && k <= |Writes(decode, s, Reset)|
    ensures var r := Restart(ApplyAll(s.disk, Writes(decode, s, Reset)[..k]));
            Valid(r) && Keys(r) == if k < 1 then Keys(s) else []
  {
    var ws, d := Writes(decode, s, Reset), s.disk;
    if k == 0 {
      assert ws[..0] == [];
    } else {
      var d1 := Apply(d, ws[0]);
      assert ws[..k] == [ws[0]] + Removals(s.n)[..k - 1];
      ApplyCons(d, ws[0], Removals(s.n)[..k - 1]);
      ApplyRemovals(d1, s.n, k - 1);
    }
  }

  /** If power is lost after any number of an operation's storage writes, the restarted device
      has the key list from before the operation or the one from after it. */
  lemma CutIsAtomic(decode: Decoder, s: State, op: Op, k: nat)
    requires Valid(s) && k <= |Writes(decode, s, op)|
    ensures Valid(Step(decode, s, op))
    ensures var r := Restart(ApplyAll(s.disk, Writes(decode, s, op)[..k]));
            Valid(r) && (Keys(r) == Keys(s) || Keys(r) == Keys(Step(decode, s, op)))
  {
    StepValid(decode, s, op);
    if Appended(decode, s, op).Some? {
      AppendCut(decode, s, op, k);
    } else if op.Reset? {
      ResetCut(decode, s, k);
    }
  }

  lemma StepValid(decode: Decoder, s: State, op: Op)
    requires Valid(s)
    ensures Valid(Step(decode, s, op))
  {
    if Appended(decode, s, op).Some? {
      AppendWrites(decode, s, op);
    } else if op.Reset? {
      ResetWrites(decode, s);
    }
  }

  lemma AppendWrites(decode: Decoder, s: State, op: Op)
    requires Valid(s) && Appended(decode, s, op).Some?
    ensures ApplyAll(s.disk, Writes(decode, s, op)) ==
            s.disk[1 := KeysCell(s.mem[s.n := Appended(decode, s, op).value])][11 := SizeCell(s.n + 1)]
  {
    var ws := Writes(decode, s, op);
    assert ws[..1][..0] == [] && ws[..|ws| - 1] == ws[..1];
    assert ApplyAll(s.disk, ws[..1]) == Apply(s.disk, ws[0]);
  }

  lemma ResetWrites(decode: Decoder, s: State)
    requires Valid(s)
    ensures var d := ApplyAll(s.disk, Writes(decode, s, Reset));
            UID_SIZE in d && d[UID_SIZE] == SizeCell(0)
            && (UID_KEYSTORE in d <==> s.n == 0 && UID_KEYSTORE in s.disk)
            && (UID_KEYSTORE in d ==> d[UID_KEYSTORE] == s.disk[UID_KEYSTORE])
  {
    var ws := Writes(decode, s, Reset);
    ApplyCons(s.disk, ws[0], Removals(s.n));
    assert Removals(s.n)[..s.n] == Removals(s.n);
    ApplyRemovals(Apply(s.disk, ws[0]), s.n, s.n);
  }

  // ----- runs

  /** An operation completed, or cut by a power loss after k storage writes. */
  datatype Event = Done(op: Op) | Cut(op: Op, k: nat)

  function After(decode: Decoder, s: State, e: Event): State
    requires Valid(s)
  {
    match e
    case Done(op) => Step(decode, s, op)
    case Cut(op, k) =>
      var ws := Writes(decode, s, op);
      Restart(ApplyAll(s.disk, ws[..if k <= |ws| then k else |ws|]))
  }

  lemma AfterValid(decode: Decoder, s: State, e: Event)
    requires Valid(s)
    ensures Valid(After(decode, s, e))
  {
    match e {
      case Done(op) => StepValid(decode, s, op);
      case Cut(op, k) =>
        var ws := Writes(decode, s, op);
        CutIsAtomic(decode, s, op, if k <= |ws| then k else |ws|);
    }
  }

  /** The states of a run of a fresh device. */
  ghost predicate IsRun(decode: Decoder, es: seq<Event>, ss: seq<State>) {
    && |ss| == |es| + 1 && ss[0] == FRESH
    && forall i :: 0 <= i < |es| ==> Valid(ss[i]) ==> ss[i + 1] == After(decode, ss[i], es[i])
  }

  /** In every reachable state the counter is at most 10 and storage would restore the keys. */
  lemma {:induction false} RunValid(decode: Decoder, es: seq<Event>, ss: seq<State>, i: nat)
    requires IsRun(decode, es, ss) && i < |ss|
    ensures Valid(ss[i]) && Keys(Restart(ss[i].disk)) == Keys(ss[i])
  {
    if i > 0 {
      RunValid(decode, es, ss, i - 1);
      AfterValid(decode, ss[i - 1], es[i - 1]);
    }
    RestartKeepsKeys(ss[i]);
  }

  lemma RestartKeepsKeys(s: State)
    requires Valid(s)
    ensures Keys(Restart(s.disk)) == Keys(s)
  {
  }

  ghost predicate Distinct(ks: seq<Scalar>) { forall i, j :: 0 <= i < j < |ks| ==> ks[i] != ks[j] }

  /** Without key generation, imports, resets and power cuts keep all secrets distinct. */
  lemma {:induction false} ImportsStayDistinct(decode: Decoder, es: seq<Event>, ss: seq<State>, i: nat)
    requires IsRun(decode, es, ss) && i < |ss|
    requires forall e :: e in es ==> !e.op.Generate?
    ensures Valid(ss[i]) && Distinct(Keys(ss[i]))
  {
    RunValid(decode, es, ss, i);
    if i > 0 {
      var s, e := ss[i - 1], es[i - 1];
      ImportsStayDistinct(decode, es, ss, i - 1);
      assert e in es;
      StepDistinct(decode, s, e.op);
      if e.Cut? {
        var ws := Writes(decode, s, e.op);
        CutIsAtomic(decode, s, e.op, if e.k <= |ws| then e.k else |ws|);
      }
    }
  }

  lemma StepDistinct(decode: Decoder, s: State, op: Op)
    requires Valid(s) && Distinct(Keys(s)) && !op.Generate?
    ensures Valid(Step(decode, s, op)) && Distinct(Keys(Step(decode, s, op)))
  {
    StepValid(decode, s, op);
    var r := Step(decode, s, op);
    if Appended(decode, s, op).Some? {
      assert Keys(r) == Keys(s) + [Appended(decode, s, op).value];
    }
  }

  /** Strings for new secrets, one after the other. */
  ghost predicate FreshSecrets(decode: Decoder, hexes: seq<seq<char>>, sks: seq<Scalar>) {
    |sks| == |hexes| && Distinct(sks) && forall i :: 0 <= i < |hexes| ==> Secret(decode, hexes[i]) == Some(sks[i])
  }

  lemma ImportNext(decode: Decoder, s: State, hex: seq<char>, sk: Scalar, sks: seq<Scalar>)
    requires Valid(s) && Secret(decode, hex) == Some(sk) && Keys(s) == sks && sk !in sks
    ensures var r := Step(decode, s, Import(hex));
            Valid(r) && Keys(r) == if |sks| < 10 then sks + [sk] else sks
  {
    StepValid(decode, s, Import(hex));
  }

  /** A fresh device takes the first ten secrets imported into it and no other one. */
  lemma {:induction false} TenImports(decode: Decoder, hexes: seq<seq<char>>, sks: seq<Scalar>, ss: seq<State>, i: nat)
    requires FreshSecrets(decode, hexes, sks) && |ss| == |hexes| + 1 && i < |ss|
    requires ss[0] == FRESH && forall k :: 0 <= k < |hexes| ==> Valid(ss[k]) ==> ss[k + 1] == Step(decode, ss[k], Import(hexes[k]))
    ensures Valid(ss[i]) && Keys(ss[i]) == sks[..if i <= 10 then i else 10]
  {
    if i > 0 {
      TenImports(decode, hexes, sks, ss, i - 1);
      var held := sks[..if i - 1 <= 10 then i - 1 else 10];
      ImportNext(decode, ss[i - 1], hexes[i - 1], sks[i - 1], held);
      assert i <= 10 ==> sks[..i] == sks[..i - 1] + [sks[i - 1]];
    }
  }

  /** Whether init reports success: it fails exactly when there is a counter but no key cell. */
  predicate BootOk(d: Disk) { Load(d).loaded.Some? }

  /** After a reset the next init succeeds only if the store was empty and its key cell had been
      written before; the key list it leaves in memory is the right, empty one either way. */
  lemma BootAfterReset(decode: Decoder, s: State)
    requires Valid(s)
    ensures var d := Step(decode, s, Reset).disk;
            (BootOk(d) <==> s.n == 0 && UID_KEYSTORE in s.disk) && Keys(Restart(d)) == []
  {
    ResetWrites(decode, s);
  }
}
