/**
 * The bridge's register vocabulary and the specification of its
 * synchronisation engine, as pure functions over values:
 *  - what one read pass over the register definitions yields (a snapshot),
 *  - how a batch of pending writes splits into failed and successful,
 *  - what the push phase leaves in the responder's change ledger,
 *  - what the pull phase does to the responder's served register image.
 * The methods of `Bridge.ModbusBridge` are proved against these functions.
 */
module Registers {
  import opened Support

  /** The four Modbus register classes a register file may define. */
  datatype RegClass = Coils | Hregs | Ists | Iregs

  /** The order in which the bridge visits the classes. */
  const AllClasses: seq<RegClass> := [Coils, Hregs, Ists, Iregs]

  /** One item returned by the transport: a coil or discrete-input bit, or a register word. */
  datatype Scalar = Bit(b: bool) | Word(w: int)

  /** A register value: a single scalar, or a list of them. */
  datatype Val = One(x: Scalar) | Many(xs: seq<Scalar>)

  /** A register-file entry `{"register": address, "len": count}`. */
  datatype RegDef = RegDef(register: int, len: int)

  /** A snapshot entry `{"register": address, "val": value}`; the value may be absent. */
  datatype Entry = Entry(register: int, val: Option<Val>)

  /** A pending host write recorded by the responder: `{"val": value, "time": timestamp}`. */
  datatype Change = Change(val: Val, time: int)

  /** Register definitions per class: key -> definition. */
  type Definitions = map<RegClass, map<string, RegDef>>

  /** One complete read of the field device: class -> key -> entry. */
  type Snapshot = map<RegClass, map<string, Entry>>

  /** The responder's change ledger: class -> address -> pending write. */
  type Ledger = map<RegClass, map<int, Change>>

  /** The responder's served register image, one value per class and address. */
  type Image = map<(RegClass, int), Val>

  /** What a read call of the transport does: return a tuple of values, or raise. */
  datatype ReadReply = Values(vs: seq<Scalar>) | ReadRaised

  /** What a write call of the transport does: return a value (only its truthiness matters), or raise. */
  datatype WriteReply = Acked(truthy: bool) | WriteRaised

  /**
   * The requester handle that polls the field device (the source's `host`
   * attribute). Its answers are outside the bridge's control, so the model
   * takes them as arbitrary functions of the call's arguments:
   * `read(class, unit, start address, count)`,
   * `writeCoil(unit, address, output value)` (function code 05),
   * `writeRegister(unit, address, value)` (function code 06).
   */
  datatype Requester = Requester(
    read: (RegClass, int, int, int) -> ReadReply,
    writeCoil: (int, int, int) -> WriteReply,
    writeRegister: (int, int, Val) -> WriteReply)

  // ---------------------------------------------------------------- coils

  /** Output value of Write Single Coil meaning ON (section 6.5 of the Modbus Application Protocol Specification V1.1b3). */
  const CoilOn: int := 0xFF00
  /** Output value of Write Single Coil meaning OFF. */
  const CoilOff: int := 0x0000

  /**
   * The output value sent for a coil: ON only for the boolean `True` itself
   * (an identity test, so the integer 1 or a list of bits is sent as OFF).
   */
  function CoilWord(v: Val): (w: int)
    ensures w == CoilOn <==> v == One(Bit(true))
    ensures w == CoilOn || w == CoilOff
  {
    if v == One(Bit(true)) then CoilOn else CoilOff
  }

  // ---------------------------------------------------------------- reads

  /** A read result of exactly one item is stored as that item, any other length as a list. */
  function Shaped(vs: seq<Scalar>): Val
  {
    if |vs| == 1 then One(vs[0]) else Many(vs)
  }

  /** The reply of the transport to the read of definition `d` of class `c`. */
  function ReadOf(req: Requester, unit: int, c: RegClass, d: RegDef): ReadReply
  {
    req.read(c, unit, d.register, d.len)
  }

  /**
   * What one pass over the definitions of one class yields: every key whose
   * read returned, with its address and shaped value; keys whose read raised
   * are left out and do not stop the others.
   */
  function ReadClass(req: Requester, unit: int, c: RegClass, defs: map<string, RegDef>): (r: map<string, Entry>)
    ensures r.Keys <= defs.Keys
    ensures forall k :: k in defs ==> (k in r <==> ReadOf(req, unit, c, defs[k]).Values?)
    ensures forall k :: k in r ==> r[k].register == defs[k].register && r[k].val.Some?
  {
    map k | k in defs && ReadOf(req, unit, c, defs[k]).Values? ::
      Entry(defs[k].register, Some(Shaped(ReadOf(req, unit, c, defs[k]).vs)))
  }

  /** The snapshot of one read-all pass: one entry per class that the definitions contain. */
  function Collected(req: Requester, unit: int, defs: Definitions): (s: Snapshot)
    ensures s.Keys == defs.Keys
  {
    map c | c in defs :: ReadClass(req, unit, c, defs[c])
  }

  /** `s` with the read result of class `c` added, when the definitions contain that class. */
  function AddClass(s: Snapshot, req: Requester, unit: int, defs: Definitions, c: RegClass): Snapshot
  {
    if c in defs then s[c := ReadClass(req, unit, c, defs[c])] else s
  }

  /** The snapshot of a pass, built the way the bridge builds it: one class after the other. */
  lemma CollectedUnrolled(req: Requester, unit: int, defs: Definitions)
    ensures Collected(req, unit, defs) ==
      AddClass(AddClass(AddClass(AddClass(map[], req, unit, defs, Coils), req, unit, defs, Hregs),
        req, unit, defs, Ists), req, unit, defs, Iregs)
  {
    var s := AddClass(AddClass(AddClass(AddClass(map[], req, unit, defs, Coils), req, unit, defs, Hregs),
        req, unit, defs, Ists), req, unit, defs, Iregs);
    var t := Collected(req, unit, defs);
    forall c ensures c in s <==> c in t
      ensures c in s ==> s[c] == t[c]
    {
      match c
      case Coils =>
      case Hregs =>
      case Ists =>
      case Iregs =>
    }
    assert s == t;
  }

  /**
   * A read that returns exactly one item is stored as a scalar, a longer or
   * empty one as a list, and a read that raised is absent.
   */
  lemma CollectedEntry(req: Requester, unit: int, defs: Definitions, c: RegClass, k: string)
    requires c in defs && k in defs[c]
    ensures var s := Collected(req, unit, defs);
      match ReadOf(req, unit, c, defs[c][k])
      case ReadRaised => k !in s[c]
      case Values(vs) =>
        && k in s[c]
        && s[c][k].register == defs[c][k].register
        && (|vs| == 1 ==> s[c][k].val == Some(One(vs[0])))
        && (|vs| != 1 ==> s[c][k].val == Some(Many(vs)))
  {
  }

  // --------------------------------------------------------------- writes

  /** Only coils and holding registers can be written; the other two classes are read-only. */
  predicate Writable(c: RegClass)
  {
    c == Coils || c == Hregs
  }

  /**
   * Whether the transport confirmed the write of `ch` to address `a` of class
   * `c`: it returned a truthy status. A raised call or a falsy status is a
   * failure; a read-only class is never written.
   */
  predicate Accepted(req: Requester, unit: int, c: RegClass, a: int, ch: Change)
  {
    match c
    case Coils => req.writeCoil(unit, a, CoilWord(ch.val)) == Acked(true)
    case Hregs => req.writeRegister(unit, a, ch.val) == Acked(true)
    case _ => false
  }

  /** The successful part of one class's batch, with the entries unchanged. */
  function Succeeded(req: Requester, unit: int, c: RegClass, batch: map<int, Change>): (r: map<int, Change>)
    ensures r.Keys <= batch.Keys
    ensures forall a :: a in batch ==> (a in r <==> Accepted(req, unit, c, a, batch[a]))
    ensures forall a :: a in r ==> r[a] == batch[a]
  {
    map a | a in batch && Accepted(req, unit, c, a, batch[a]) :: batch[a]
  }

  /** The failed part of one class's batch, with the entries unchanged. */
  function Failed(req: Requester, unit: int, c: RegClass, batch: map<int, Change>): (r: map<int, Change>)
    ensures r.Keys <= batch.Keys
    ensures forall a :: a in batch ==> (a in r <==> !Accepted(req, unit, c, a, batch[a]))
    ensures forall a :: a in r ==> r[a] == batch[a]
  {
    map a | a in batch && !Accepted(req, unit, c, a, batch[a]) :: batch[a]
  }

  /** Every key of a batch lands in exactly one of the two parts. */
  lemma BatchPartition(req: Requester, unit: int, c: RegClass, batch: map<int, Change>)
    ensures Failed(req, unit, c, batch).Keys !! Succeeded(req, unit, c, batch).Keys
    ensures Failed(req, unit, c, batch).Keys + Succeeded(req, unit, c, batch).Keys == batch.Keys
  {
  }

  /** Successful writes of a whole ledger: a class appears only when its part is non-empty. */
  function PushedOk(req: Requester, unit: int, regs: Ledger): (r: Ledger)
    ensures forall c :: c in r <==> c in regs && Writable(c) && Succeeded(req, unit, c, regs[c]) != map[]
    ensures forall c :: c in r ==> r[c] == Succeeded(req, unit, c, regs[c])
  {
    map c | c in regs && Writable(c) && Succeeded(req, unit, c, regs[c]) != map[] :: Succeeded(req, unit, c, regs[c])
  }

  /** Failed writes of a whole ledger: a class appears only when its part is non-empty. */
  function PushFailed(req: Requester, unit: int, regs: Ledger): (r: Ledger)
    ensures forall c :: c in r <==> c in regs && Writable(c) && Failed(req, unit, c, regs[c]) != map[]
    ensures forall c :: c in r ==> r[c] == Failed(req, unit, c, regs[c])
  {
    map c | c in regs && Writable(c) && Failed(req, unit, c, regs[c]) != map[] :: Failed(req, unit, c, regs[c])
  }

  /** Records `part` under class `c` only when it is non-empty (an empty dict is falsy). */
  function Record(l: Ledger, c: RegClass, part: map<int, Change>): Ledger
  {
    if part == map[] then l else l[c := part]
  }

  /** The failed part of class `c` of a ledger; empty when the ledger has no such class. */
  function FailedIn(req: Requester, unit: int, regs: Ledger, c: RegClass): map<int, Change>
  {
    if c in regs then Failed(req, unit, c, regs[c]) else map[]
  }

  /** The successful part of class `c` of a ledger; empty when the ledger has no such class. */
  function SucceededIn(req: Requester, unit: int, regs: Ledger, c: RegClass): map<int, Change>
  {
    if c in regs then Succeeded(req, unit, c, regs[c]) else map[]
  }

  /**
   * The failed result of a whole push, built the way the bridge builds it:
   * coils first, then holding registers, each recorded when non-empty.
   */
  lemma PushFailedUnrolled(req: Requester, unit: int, regs: Ledger)
    ensures PushFailed(req, unit, regs) ==
      Record(Record(map[], Coils, FailedIn(req, unit, regs, Coils)), Hregs, FailedIn(req, unit, regs, Hregs))
  {
    var fc, fh := FailedIn(req, unit, regs, Coils), FailedIn(req, unit, regs, Hregs);
    var bad := Record(Record(map[], Coils, fc), Hregs, fh);
    var pf := PushFailed(req, unit, regs);
    assert Coils in bad <==> fc != map[];
    assert Hregs in bad <==> fh != map[];
    forall c ensures c in bad <==> c in pf
      ensures c in bad ==> bad[c] == pf[c]
    {
      match c
      case Coils =>
      case Hregs =>
      case Ists =>
      case Iregs =>
    }
    LedgerExt(bad, pf);
  }

  /** The successful result of a whole push, built the same way. */
  lemma PushedOkUnrolled(req: Requester, unit: int, regs: Ledger)
    ensures PushedOk(req, unit, regs) ==
      Record(Record(map[], Coils, SucceededIn(req, unit, regs, Coils)), Hregs, SucceededIn(req, unit, regs, Hregs))
  {
    var sc, sh := SucceededIn(req, unit, regs, Coils), SucceededIn(req, unit, regs, Hregs);
    var ok := Record(Record(map[], Coils, sc), Hregs, sh);
    var ps := PushedOk(req, unit, regs);
    assert Coils in ok <==> sc != map[];
    assert Hregs in ok <==> sh != map[];
    forall c ensures c in ok <==> c in ps
      ensures c in ok ==> ok[c] == ps[c]
    {
      match c
      case Coils =>
      case Hregs =>
      case Ists =>
      case Iregs =>
    }
    LedgerExt(ok, ps);
  }

  /**
   * Across a whole ledger: no read-only class is ever reported, and each
   * entry of a writable class is reported exactly once, under the same
   * class, address and entry.
   */
  lemma {:induction false} PushPartition(req: Requester, unit: int, regs: Ledger, c: RegClass, a: int)
    requires c in regs && a in regs[c]
    ensures var ok, bad := PushedOk(req, unit, regs), PushFailed(req, unit, regs);
      && (!Writable(c) ==> c !in ok && c !in bad)
      && (Writable(c) ==> ((c in ok && a in ok[c]) <==> !(c in bad && a in bad[c])))
      && (c in ok && a in ok[c] ==> ok[c][a] == regs[c][a])
      && (c in bad && a in bad[c] ==> bad[c][a] == regs[c][a])
  {
    if Writable(c) {
      var ch := regs[c][a];
      if Accepted(req, unit, c, a, ch) {
        assert a in Succeeded(req, unit, c, regs[c]);
      } else {
        assert a in Failed(req, unit, c, regs[c]);
      }
    }
  }

  // ------------------------------------------------------ the push phase

  /** Two ledgers with the same classes and the same part per class are equal. */
  lemma LedgerExt(r: Ledger, s: Ledger)
    requires r.Keys == s.Keys
    requires forall c :: c in r ==> r[c] == s[c]
    ensures r == s
  {
  }

  /** The (class, address) pairs of a ledger. */
  function Pairs(s: Ledger): (p: set<(RegClass, int)>)
    ensures forall c, a :: (c, a) in p <==> c in s && a in s[c]
  {
    set c, a | c in s && a in s[c] :: (c, a)
  }

  /** The ledger without the given (class, address) pairs; class keys stay. */
  function Drop(l: Ledger, p: set<(RegClass, int)>): (r: Ledger)
    ensures r.Keys == l.Keys
    ensures forall c :: c in r ==> r[c].Keys == set a | a in l[c] && (c, a) !in p
    ensures forall c, a :: c in r && a in r[c] ==> r[c][a] == l[c][a]
  {
    map c | c in l :: map a | a in l[c] && (c, a) !in p :: l[c][a]
  }

  /**
   * The ledger after the responder's compare-and-delete of address `a` of
   * class `c` with timestamp `ts`: the entry goes only if it still carries
   * that timestamp, so a newer write recorded in the meantime survives.
   */
  function RemoveIfCurrent(l: Ledger, c: RegClass, a: int, ts: int): (r: Ledger)
    ensures r.Keys == l.Keys
    ensures !(c in l && a in l[c] && l[c][a].time == ts) ==> r == l
    ensures c in l && a in l[c] && l[c][a].time == ts ==> r[c] == l[c] - {a}
  {
    if c in l && a in l[c] && l[c][a].time == ts then l[c := l[c] - {a}] else l
  }

  /** Dropping no pair leaves the ledger as it is. */
  lemma DropNothing(l: Ledger)
    ensures Drop(l, {}) == l
  {
    var r := Drop(l, {});
    forall c | c in l ensures r[c] == l[c] {
      assert r[c].Keys == l[c].Keys;
    }
  }

  /** One more removal by the recorded timestamp drops exactly one more pair. */
  lemma {:induction false} DropOneMore(l: Ledger, done: set<(RegClass, int)>, c: RegClass, a: int)
    requires c in l && a in l[c] && (c, a) !in done
    ensures RemoveIfCurrent(Drop(l, done), c, a, l[c][a].time) == Drop(l, done + {(c, a)})
  {
    var d0, d1 := Drop(l, done), Drop(l, done + {(c, a)});
    assert a in d0[c];
    var r := RemoveIfCurrent(d0, c, a, l[c][a].time);
    assert r[c] == d0[c] - {a};
    forall c' | c' in l ensures r[c'] == d1[c'] {
      if c' == c {
        assert r[c].Keys == d1[c].Keys;
      } else {
        assert r[c'] == d0[c'];
        assert d0[c'].Keys == d1[c'].Keys;
      }
    }
  }

  /** The push runs only when some class of the ledger has a pending entry. */
  predicate PushDue(l: Ledger)
  {
    exists c :: c in l && l[c] != map[]
  }

  /**
   * The older variant's gate: it tests the ledger's class names, which are
   * non-empty strings, so it holds as soon as the ledger has any class key.
   */
  predicate LegacyPushDue(l: Ledger)
  {
    l != map[]
  }

  /** The ledger after one push phase: every confirmed write is removed. */
  function AfterPush(req: Requester, unit: int, l: Ledger): Ledger
  {
    if PushDue(l) then Drop(l, Pairs(PushedOk(req, unit, l))) else l
  }

  /** The ledger after one push phase of the older variant. */
  function AfterPushLegacy(req: Requester, unit: int, l: Ledger): Ledger
  {
    if LegacyPushDue(l) then Drop(l, Pairs(PushedOk(req, unit, l))) else l
  }

  /** What succeeded is a part of the ledger that was pushed, entry for entry. */
  lemma PushedOkWithin(req: Requester, unit: int, l: Ledger)
    ensures forall c, a :: c in PushedOk(req, unit, l) && a in PushedOk(req, unit, l)[c] ==>
      c in l && a in l[c] && PushedOk(req, unit, l)[c][a] == l[c][a]
  {
  }

  /**
   * The push phase removes exactly the entries of coils and holding
   * registers whose write the transport confirmed; failed writes and every
   * entry of a read-only class stay, unchanged, for the next cycle.
   */
  lemma {:induction false} AfterPushEntry(req: Requester, unit: int, l: Ledger, c: RegClass, a: int)
    requires c in l && a in l[c]
    ensures var r := AfterPush(req, unit, l);
      && r.Keys == l.Keys
      && (a in r[c] <==> !Accepted(req, unit, c, a, l[c][a]))
      && (a in r[c] ==> r[c][a] == l[c][a])
  {
    assert PushDue(l);
    var ok := PushedOk(req, unit, l);
    if Accepted(req, unit, c, a, l[c][a]) {
      assert Writable(c);
      assert a in Succeeded(req, unit, c, l[c]);
      assert (c, a) in Pairs(ok);
    } else {
      assert (c, a) !in Pairs(ok);
    }
  }

  /** Nothing is added to the ledger by the push phase. */
  lemma AfterPushShrinks(req: Requester, unit: int, l: Ledger, c: RegClass)
    requires c in l
    ensures c in AfterPush(req, unit, l) && AfterPush(req, unit, l)[c].Keys <= l[c].Keys
  {
  }

  /** With nothing pending, nothing can succeed, so the ledger is left as it is. */
  lemma {:induction false} NothingPendingNothingRemoved(req: Requester, unit: int, l: Ledger)
    requires !PushDue(l)
    ensures PushedOk(req, unit, l) == map[]
    ensures Drop(l, Pairs(PushedOk(req, unit, l))) == l
  {
    forall c | c in l ensures Succeeded(req, unit, c, l[c]) == map[] {
      assert l[c] == map[];
    }
    assert Pairs(map[]) == {};
    var d := Drop(l, {});
    assert forall c | c in l :: d[c] == l[c];
  }

  /**
   * The older variant's looser gate changes nothing: it also pushes when
   * every class is empty, and then no entry is removed.
   */
  lemma {:induction false} LegacyPushAgrees(req: Requester, unit: int, l: Ledger)
    ensures AfterPushLegacy(req, unit, l) == AfterPush(req, unit, l)
  {
    if PushDue(l) {
      assert l != map[] by {
        var c :| c in l && l[c] != map[];
      }
    } else {
      NothingPendingNothingRemoved(req, unit, l);
    }
  }

  // ------------------------------------------------------ the pull phase

  /** Entry `k` of class `c` of the snapshot carries value `v` for address `addr`. */
  ghost predicate Provides(snap: Snapshot, c: RegClass, k: string, addr: int, v: Val)
  {
    c in snap && k in snap[c] && snap[c][k].register == addr && snap[c][k].val == Some(v)
  }

  /** Some entry among `done` with a value targets image cell `p`. */
  ghost predicate TargetedBy(snap: Snapshot, done: set<(RegClass, string)>, p: (RegClass, int))
  {
    exists k :: (p.0, k) in done && p.0 in snap && k in snap[p.0] &&
      snap[p.0][k].register == p.1 && snap[p.0][k].val.Some?
  }

  /** All (class, key) pairs of a snapshot. */
  function Keys(snap: Snapshot): (ks: set<(RegClass, string)>)
    ensures forall c, k :: (c, k) in ks <==> c in snap && k in snap[c]
  {
    set c, k | c in snap && k in snap[c] :: (c, k)
  }

  /**
   * `after` is `before` with the entries `done` of the snapshot applied: a
   * targeted cell holds the value of an entry for that class and address,
   * every other cell is as it was (and absent cells stay absent).
   */
  ghost predicate Applied(before: Image, after: Image, snap: Snapshot, done: set<(RegClass, string)>)
  {
    && (forall p :: !TargetedBy(snap, done, p) ==> (p in after <==> p in before))
    && (forall p :: p in after && !TargetedBy(snap, done, p) ==> after[p] == before[p])
    && (forall p :: TargetedBy(snap, done, p) ==>
          p in after && exists k :: (p.0, k) in done && Provides(snap, p.0, k, p.1, after[p]))
  }

  /** Applying no entry leaves the image as it is. */
  lemma AppliedNothing(image: Image, snap: Snapshot)
    ensures Applied(image, image, snap, {})
  {
  }

  /** Applying one more entry: a valued entry sets its cell, an entry without a value changes nothing. */
  lemma {:induction false} ApplyOneMore(before: Image, after0: Image, after1: Image, snap: Snapshot,
                                        done: set<(RegClass, string)>, c: RegClass, k: string)
    requires c in snap && k in snap[c]
    requires Applied(before, after0, snap, done)
    requires after1 == if snap[c][k].val.Some? then after0[(c, snap[c][k].register) := snap[c][k].val.value] else after0
    ensures Applied(before, after1, snap, done + {(c, k)})
  {
    var done' := done + {(c, k)};
    var e := snap[c][k];
    var p0 := (c, e.register);
    forall p | p != p0 || e.val.None?
      ensures TargetedBy(snap, done', p) <==> TargetedBy(snap, done, p)
    {
      if TargetedBy(snap, done', p) {
        var k' :| (p.0, k') in done' && p.0 in snap && k' in snap[p.0] &&
          snap[p.0][k'].register == p.1 && snap[p.0][k'].val.Some?;
        assert (p.0, k') in done;
      }
    }
    forall p | TargetedBy(snap, done', p)
      ensures p in after1 && exists k' :: (p.0, k') in done' && Provides(snap, p.0, k', p.1, after1[p])
    {
      if e.val.Some? && p == p0 {
        assert Provides(snap, c, k, e.register, after1[p0]);
      } else {
        var k' :| (p.0, k') in done && Provides(snap, p.0, k', p.1, after0[p]);
        assert (p.0, k') in done';
      }
    }
  }

  /** Reading the snapshot slot: a new snapshot replaces the kept one only when it is not empty. */
  function KeepLatest(kept: Snapshot, published: Snapshot): (r: Snapshot)
    ensures r != map[] <==> (published != map[] || kept != map[])
    ensures r == published || r == kept
    ensures published != map[] ==> r == published
    ensures published == map[] ==> r == kept
  {
    if published != map[] then published else kept
  }
}
