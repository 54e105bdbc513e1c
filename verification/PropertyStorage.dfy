/**
 * Property objects and the payloads they share (include/erebus/system/property.hxx, src/system/property.cxx).
 * An object is known by its address; strings and binaries live in counted payloads, all else in the object.
 */
module PropertyStorage {
  import opened PropertyRegistry
  import WireProtocol

  type Address = nat
  type PayloadId = nat
  type Content = seq<int>

  /** The 64-bit storage word: a number, or a pointer to a payload. */
  datatype Word = Bits(bits: nat) | Pointer(payload: PayloadId)

  datatype Object = Object(info: nat, ty: PropertyType, word: Word)

  datatype Payload = Payload(refs: int, data: Content)

  predicate AllocatesStorage(ty: PropertyType) {
    ty.String? || ty.Binary?
  }

  /** The types from `String` on in their order, which are those whose values are not numbers. */
  lemma StorageFromStringOn(ty: PropertyType, v: WireProtocol.Value)
    ensures AllocatesStorage(ty) <==> WireProtocol.Index(ty) >= WireProtocol.Index(PropertyType.String)
    ensures AllocatesStorage(v.Type()) <==> v.VString? || v.VBinary?
  {
  }

  /** The description every empty property points at. */
  const EMPTY_INFO: nat := 0

  // ---------------------------------------------------------------- values without sharing

  /** What an object is worth, whoever shares its payload. */
  datatype Worth = Number(info: nat, ty: PropertyType, bits: nat) | Blob(info: nat, ty: PropertyType, data: Content)

  const EMPTY_WORTH := Number(EMPTY_INFO, PropertyType.Empty, 0)

  datatype Op =
    | MakeNumber(info: nat, ty: PropertyType, bits: nat)
    | MakeBlob(info: nat, ty: PropertyType, data: Content)
    | CopyOf(src: Address)
    | MoveOf(src: Address)
    | CopyAssign(dst: Address, src: Address)
    | MoveAssign(dst: Address, src: Address)
    | Swap(a: Address, b: Address)
    | Destroy(a: Address)

  /** Plain values under their addresses: what the sharing implementation has to look like. */
  datatype Plain = Plain(worths: map<Address, Worth>, next: Address) {

    predicate Legal(op: Op) {
      match op
      case MakeNumber(_, ty, _) => !AllocatesStorage(ty)
      case MakeBlob(_, ty, _) => AllocatesStorage(ty)
      case CopyOf(src) => src in worths
      case MoveOf(src) => src in worths
      case CopyAssign(dst, src) => dst in worths && src in worths
      case MoveAssign(dst, src) => dst in worths && src in worths
      case Swap(a, b) => a in worths && b in worths
      case Destroy(a) => a in worths
    }

    function Made(w: Worth): Plain {
      Plain(worths[next := w], next + 1)
    }

    function After(op: Op): Plain
      requires Legal(op)
    {
      match op
      case MakeNumber(info, ty, bits) => Made(Number(info, ty, bits))
      case MakeBlob(info, ty, data) => Made(Blob(info, ty, data))
      case CopyOf(src) => Made(worths[src])
      case MoveOf(src) => Plain(worths[src := EMPTY_WORTH][next := worths[src]], next + 1)
      case CopyAssign(dst, src) => Plain(worths[dst := worths[src]], next + 1)
      case MoveAssign(dst, src) => Plain(worths[src := EMPTY_WORTH][dst := worths[src]], next + 1)
      case Swap(a, b) => this.(worths := worths[a := worths[b]][b := worths[a]])
      case Destroy(a) => this.(worths := worths - {a})
    }

    predicate AllLegal(ops: seq<Op>)
      decreases |ops|
    {
      ops == [] || (Legal(ops[0]) && After(ops[0]).AllLegal(ops[1..]))
    }

    function AfterAll(ops: seq<Op>): Plain
      requires AllLegal(ops)
      decreases |ops|
    {
      if ops == [] then this else After(ops[0]).AfterAll(ops[1..])
    }
  }

  /** Everything but what is under the addresses in `touched` is as it was. */
  ghost predicate OthersKept(before: map<Address, Worth>, after: map<Address, Worth>, touched: set<Address>) {
    forall a | a !in touched :: (a in after <==> a in before) && (a in before ==> after[a] == before[a])
  }

  /** The addresses an operation on `p` may give another worth: what it makes, assigns, empties or destroys. */
  function Touched(p: Plain, op: Op): set<Address> {
    match op
    case MakeNumber(_, _, _) => {p.next}
    case MakeBlob(_, _, _) => {p.next}
    case CopyOf(_) => {p.next}
    case MoveOf(src) => {p.next, src}
    case CopyAssign(dst, _) => {dst}
    case MoveAssign(dst, src) => {dst, src}
    case Swap(a, b) => {a, b}
    case Destroy(a) => {a}
  }

  /** No address is used twice. */
  ghost predicate Fresh(p: Plain) {
    forall a | a in p.worths :: a < p.next
  }

  /** An operation changes nothing but what it names; no address it gives out was in use before. */
  lemma OnlyTouchedChange(p: Plain, op: Op)
    requires Fresh(p) && p.Legal(op)
    ensures Fresh(p.After(op)) && p.next <= p.After(op).next
    ensures OthersKept(p.worths, p.After(op).worths, Touched(p, op))
  {
  }

  /** A copy, constructed or assigned, is worth what its source is, which keeps it; assigning to itself is nothing. */
  lemma CopiesAreWorthTheSource(p: Plain, dst: Address, src: Address)
    requires Fresh(p) && src in p.worths
    ensures var after := p.After(Op.CopyOf(src)).worths;
            p.next in after && after[p.next] == p.worths[src] && src in after && after[src] == p.worths[src]
    ensures dst in p.worths ==>
              var after := p.After(Op.CopyAssign(dst, src)).worths;
              && after.Keys == p.worths.Keys && after[dst] == p.worths[src] && after[src] == p.worths[src]
              && (dst == src ==> after == p.worths)
  {
  }

  /** A move hands over the worth and leaves an empty property behind; moving to itself is nothing. */
  lemma MovesLeaveEmpty(p: Plain, dst: Address, src: Address)
    requires Fresh(p) && src in p.worths
    ensures var after := p.After(Op.MoveOf(src)).worths;
            && p.next in after && after[p.next] == p.worths[src]
            && src in after && after[src].Number? && after[src].ty.Empty? && after[src].bits == 0
    ensures dst in p.worths ==>
              var after := p.After(Op.MoveAssign(dst, src)).worths;
              && after.Keys == p.worths.Keys && after[dst] == p.worths[src]
              && (dst != src ==> after[src].Number? && after[src].ty.Empty? && after[src].bits == 0)
              && (dst == src ==> after == p.worths)
  {
  }

  /** Swapping twice is nothing, and neither is making something, which is worth what was asked, and destroying it. */
  lemma UndoneOperations(p: Plain, a: Address, b: Address, info: nat, ty: PropertyType, bits: nat, data: Content)
    requires Fresh(p)
    ensures a in p.worths && b in p.worths ==>
              var swapped := p.After(Op.Swap(a, b));
              && swapped.worths[a] == p.worths[b] && swapped.worths[b] == p.worths[a]
              && swapped.Legal(Op.Swap(a, b)) && swapped.After(Op.Swap(a, b)) == p
    ensures var op := if AllocatesStorage(ty) then Op.MakeBlob(info, ty, data) else Op.MakeNumber(info, ty, bits);
            var worth := if AllocatesStorage(ty) then Blob(info, ty, data) else Number(info, ty, bits);
            && p.Legal(op) && p.next in p.After(op).worths && p.After(op).worths[p.next] == worth
            && p.After(op).After(Op.Destroy(p.next)).worths == p.worths
  {
    if a in p.worths && b in p.worths {
      var swapped := p.After(Op.Swap(a, b));
      assert swapped.After(Op.Swap(a, b)).worths == p.worths;
    }
  }

  /** Whether no operation of a run touches what is under an address. */
  predicate NeverTouched(p: Plain, ops: seq<Op>, a: Address)
    requires p.AllLegal(ops)
    decreases |ops|
  {
    ops == [] || (a !in Touched(p, ops[0]) && NeverTouched(p.After(ops[0]), ops[1..], a))
  }

  /**
   * Over any run a property keeps its worth as long as nothing is done to it by name, whatever is done to
   * the copies it shares a payload with; and it is still there.
   */
  lemma {:induction false} UntouchedKeepsWorth(p: Plain, ops: seq<Op>, a: Address)
    requires Fresh(p) && p.AllLegal(ops) && a in p.worths && NeverTouched(p, ops, a)
    ensures a in p.AfterAll(ops).worths && p.AfterAll(ops).worths[a] == p.worths[a]
    decreases |ops|
  {
    if ops != [] {
      OnlyTouchedChange(p, ops[0]);
      hide Plain.After, Plain.Legal, Fresh, Touched;
      UntouchedKeepsWorth(p.After(ops[0]), ops[1..], a);
    }
  }

  // ---------------------------------------------------------------- counting pointers

  type Objects = map<Address, Object>

  function Pointing(objects: Objects, q: PayloadId): set<Address> {
    set a | a in objects && objects[a].word == Pointer(q)
  }

  function One(o: Object, q: PayloadId): nat {
    if o.word == Pointer(q) then 1 else 0
  }

  lemma PointingAfterAdd(objects: Objects, a: Address, o: Object, q: PayloadId)
    requires a !in objects
    ensures |Pointing(objects[a := o], q)| == |Pointing(objects, q)| + One(o, q)
  {
    assert Pointing(objects[a := o], q) == Pointing(objects, q) + if o.word == Pointer(q) then {a} else {};
  }

  lemma PointingAfterRemove(objects: Objects, a: Address, q: PayloadId)
    requires a in objects
    ensures |Pointing(objects - {a}, q)| == |Pointing(objects, q)| - One(objects[a], q)
  {
    PointingAfterAdd(objects - {a}, a, objects[a], q);
    assert (objects - {a})[a := objects[a]] == objects;
  }

  lemma PointingAfterSwap(objects: Objects, a: Address, b: Address, q: PayloadId)
    requires a in objects && b in objects
    ensures |Pointing(objects[a := objects[b]][b := objects[a]], q)| == |Pointing(objects, q)|
  {
    if a == b {
      assert objects[a := objects[b]][b := objects[a]] == objects;
    } else {
      var rest := objects - {a} - {b};
      PointingAfterRemove(objects, a, q);
      PointingAfterRemove(objects - {a}, b, q);
      PointingAfterAdd(rest, a, objects[b], q);
      PointingAfterAdd(rest[a := objects[b]], b, objects[a], q);
      assert objects[a := objects[b]][b := objects[a]] == rest[a := objects[b]][b := objects[a]];
    }
  }

  /** Each payload is counted exactly, and exists exactly while something points at it. */
  ghost predicate CountsExact(objects: Objects, payloads: map<PayloadId, Payload>) {
    && (forall q | q in payloads :: payloads[q].refs == |Pointing(objects, q)| && payloads[q].refs > 0)
    && (forall a | a in objects && objects[a].word.Pointer? :: objects[a].word.payload in payloads)
  }

  ghost predicate WordsMatchTypes(objects: Objects) {
    forall a | a in objects :: objects[a].word.Pointer? <==> AllocatesStorage(objects[a].ty)
  }

  function WorthOf(o: Object, payloads: map<PayloadId, Payload>): Worth {
    match o.word
    case Bits(b) => Number(o.info, o.ty, b)
    case Pointer(q) => Blob(o.info, o.ty, if q in payloads then payloads[q].data else [])
  }

  function Worths(objects: Objects, payloads: map<PayloadId, Payload>): (worths: map<Address, Worth>)
    ensures worths.Keys == objects.Keys
  {
    map a | a in objects :: WorthOf(objects[a], payloads)
  }

  lemma WorthAt(objects: Objects, payloads: map<PayloadId, Payload>, a: Address)
    requires a in objects
    ensures Worths(objects, payloads)[a] == WorthOf(objects[a], payloads)
  {
  }

  /** An object's tag says whether its word is a pointer, and then the payload is there. */
  lemma WordAt(objects: Objects, payloads: map<PayloadId, Payload>, a: Address)
    requires CountsExact(objects, payloads) && WordsMatchTypes(objects) && a in objects
    ensures objects[a].word.Pointer? <==> AllocatesStorage(objects[a].ty)
    ensures objects[a].word.Pointer? ==> objects[a].word.payload in payloads
  {
  }

  lemma WordsAfterAdd(objects: Objects, a: Address, o: Object)
    requires WordsMatchTypes(objects) && (o.word.Pointer? <==> AllocatesStorage(o.ty))
    ensures WordsMatchTypes(objects[a := o])
  {
  }

  /** A new object on a shared payload, once the count is raised. */
  lemma CopyKeepsCounts(objects: Objects, payloads: map<PayloadId, Payload>, src: Address, a: Address)
    requires CountsExact(objects, payloads) && src in objects && a !in objects && objects[src].word.Pointer?
    ensures var q := objects[src].word.payload;
            var payloads' := payloads[q := payloads[q].(refs := payloads[q].refs + 1)];
            && CountsExact(objects[a := objects[src]], payloads')
            && Worths(objects[a := objects[src]], payloads')
               == Worths(objects, payloads)[a := WorthOf(objects[src], payloads)]
  {
    forall r
      ensures |Pointing(objects[a := objects[src]], r)| == |Pointing(objects, r)| + One(objects[src], r)
    {
      PointingAfterAdd(objects, a, objects[src], r);
    }
  }

  lemma PlainObjectKeepsCounts(objects: Objects, payloads: map<PayloadId, Payload>, a: Address, o: Object)
    requires CountsExact(objects, payloads) && a !in objects && o.word.Bits?
    ensures CountsExact(objects[a := o], payloads)
    ensures Worths(objects[a := o], payloads) == Worths(objects, payloads)[a := WorthOf(o, payloads)]
  {
    forall r
      ensures |Pointing(objects[a := o], r)| == |Pointing(objects, r)|
    {
      PointingAfterAdd(objects, a, o, r);
    }
  }

  lemma FreshPayloadKeepsCounts(
      objects: Objects, payloads: map<PayloadId, Payload>, a: Address, o: Object, data: Content)
    requires CountsExact(objects, payloads) && a !in objects && o.word.Pointer? && o.word.payload !in payloads
    ensures var payloads' := payloads[o.word.payload := Payload(1, data)];
            && CountsExact(objects[a := o], payloads')
            && Worths(objects[a := o], payloads') == Worths(objects, payloads)[a := Blob(o.info, o.ty, data)]
  {
    forall r
      ensures |Pointing(objects[a := o], r)| == |Pointing(objects, r)| + One(o, r)
    {
      PointingAfterAdd(objects, a, o, r);
    }
    assert Pointing(objects, o.word.payload) == {};
  }

  lemma SwapKeepsCounts(objects: Objects, payloads: map<PayloadId, Payload>, a: Address, b: Address)
    requires CountsExact(objects, payloads) && a in objects && b in objects
    ensures var objects' := objects[a := objects[b]][b := objects[a]];
            && CountsExact(objects', payloads)
            && Worths(objects', payloads)
               == Worths(objects, payloads)[a := WorthOf(objects[b], payloads)][b := WorthOf(objects[a], payloads)]
  {
    forall r
      ensures |Pointing(objects[a := objects[b]][b := objects[a]], r)| == |Pointing(objects, r)|
    {
      PointingAfterSwap(objects, a, b, r);
    }
  }

  /** An object goes away: its payload's count drops, and the payload goes with the last pointer. */
  lemma RemovalKeepsCounts(
      objects: Objects, payloads: map<PayloadId, Payload>, a: Address, payloads': map<PayloadId, Payload>)
    requires CountsExact(objects, payloads) && a in objects
    requires match objects[a].word
             case Bits(_) => payloads' == payloads
             case Pointer(q) =>
               payloads' == if payloads[q].refs == 1 then payloads - {q}
                            else payloads[q := payloads[q].(refs := payloads[q].refs - 1)]
    ensures CountsExact(objects - {a}, payloads')
    ensures Worths(objects - {a}, payloads') == Worths(objects, payloads) - {a}
  {
    var rest := objects - {a};
    forall r
      ensures |Pointing(rest, r)| == |Pointing(objects, r)| - One(objects[a], r)
    {
      PointingAfterRemove(objects, a, r);
    }
    forall b | b in rest && rest[b].word.Pointer?
      ensures rest[b].word.payload in payloads'
    {
      assert b in Pointing(rest, rest[b].word.payload);
    }
  }

  // ---------------------------------------------------------------- the objects

  class Store {
    var objects: Objects
    var payloads: map<PayloadId, Payload>
    var nextAddress: Address
    var nextPayload: PayloadId

    ghost predicate Valid()
      reads this
    {
      && CountsExact(objects, payloads) && WordsMatchTypes(objects)
      && (forall a | a in objects :: a < nextAddress)
      && (forall q | q in payloads :: q < nextPayload)
    }

    ghost function View(): Plain
      reads this
    {
      Plain(Worths(objects, payloads), nextAddress)
    }

    constructor ()
      ensures Valid() && View() == Plain(map[], 0) && payloads == map[]
    {
      objects, payloads, nextAddress, nextPayload := map[], map[], 0, 0;
    }

    /** Drops one reference; the last one frees the payload. */
    method Release(q: PayloadId)
      requires q in payloads
      modifies this`payloads
      ensures payloads == if old(payloads)[q].refs == 1 then old(payloads) - {q}
                          else old(payloads)[q := old(payloads)[q].(refs := old(payloads)[q].refs - 1)]
    {
      var prev := payloads[q].refs;
      payloads := payloads[q := payloads[q].(refs := prev - 1)];
      if prev == 1 {
        payloads := payloads - {q};
      }
    }

    method MakeNumber(info: nat, ty: PropertyType, bits: nat) returns (a: Address)
      requires Valid() && !AllocatesStorage(ty)
      modifies this
      ensures Valid() && a == old(nextAddress)
      ensures View() == old(View()).After(Op.MakeNumber(info, ty, bits))
    {
      a := nextAddress;
      PlainObjectKeepsCounts(objects, payloads, a, Object(info, ty, Bits(bits)));
      objects := objects[a := Object(info, ty, Bits(bits))];
      nextAddress := nextAddress + 1;
    }

    method MakeBlob(info: nat, ty: PropertyType, data: Content) returns (a: Address)
      requires Valid() && AllocatesStorage(ty)
      modifies this
      ensures Valid() && a == old(nextAddress)
      ensures View() == old(View()).After(Op.MakeBlob(info, ty, data))
    {
      a := nextAddress;
      var q := nextPayload;
      FreshPayloadKeepsCounts(objects, payloads, a, Object(info, ty, Pointer(q)), data);
      payloads := payloads[q := Payload(1, data)];
      objects := objects[a := Object(info, ty, Pointer(q))];
      nextAddress, nextPayload := nextAddress + 1, nextPayload + 1;
    }

    /** The copy constructor: copies both words and counts the new pointer. */
    method CopyOf(src: Address) returns (a: Address)
      requires Valid() && src in objects
      modifies this
      ensures Valid() && a == old(nextAddress) && objects == old(objects)[a := old(objects)[src]]
      ensures View() == old(View()).After(Op.CopyOf(src))
    {
      hide CountsExact, WordsMatchTypes, Worths, AllocatesStorage;
      a := nextAddress;
      var o := objects[src];
      WorthAt(objects, payloads, src);
      WordAt(objects, payloads, src);
      WordsAfterAdd(objects, a, o);
      if AllocatesStorage(o.ty) {
        CopyKeepsCounts(objects, payloads, src, a);
        var q := o.word.payload;
        payloads := payloads[q := payloads[q].(refs := payloads[q].refs + 1)];
      } else {
        PlainObjectKeepsCounts(objects, payloads, a, o);
      }
      objects := objects[a := o];
      nextAddress := nextAddress + 1;
    }

    method Swap(a: Address, b: Address)
      requires Valid() && a in objects && b in objects
      modifies this
      ensures Valid() && payloads == old(payloads) && nextAddress == old(nextAddress)
      ensures objects == old(objects)[a := old(objects)[b]][b := old(objects)[a]]
      ensures View() == old(View()).After(Op.Swap(a, b))
    {
      hide CountsExact, WordsMatchTypes, Worths, AllocatesStorage;
      WorthAt(objects, payloads, a);
      WorthAt(objects, payloads, b);
      WordAt(objects, payloads, a);
      WordAt(objects, payloads, b);
      WordsAfterAdd(objects, a, objects[b]);
      WordsAfterAdd(objects[a := objects[b]], b, objects[a]);
      SwapKeepsCounts(objects, payloads, a, b);
      var left, right := objects[a], objects[b];
      objects := objects[a := right][b := left];
    }

    /** The destructor. */
    method Destroy(a: Address)
      requires Valid() && a in objects
      modifies this
      ensures Valid() && objects == old(objects) - {a} && nextAddress == old(nextAddress)
      ensures View() == old(View()).After(Op.Destroy(a))
    {
      var o := objects[a];
      if AllocatesStorage(o.ty) {
        Release(o.word.payload);
      }
      RemovalKeepsCounts(objects, old(payloads), a, payloads);
      objects := objects - {a};
    }

    /** The move constructor: an empty property, swapped with the source. */
    method MoveOf(src: Address) returns (a: Address)
      requires Valid() && src in objects
      modifies this
      ensures Valid() && a == old(nextAddress)
      ensures View() == old(View()).After(Op.MoveOf(src))
      ensures var was, now := old(View()).worths, View().worths;
              && a in now && now[a] == was[src] && src in now && now[src].ty.Empty?
              && OthersKept(was, now, {a, src})
    {
      hide CountsExact, WordsMatchTypes, Worths;
      a := MakeNumber(EMPTY_INFO, PropertyType.Empty, 0);
      Swap(src, a);
    }

    /** Copies into a temporary, swaps it in, and destroys what was there; also for an object assigned to itself. */
    method CopyAssign(dst: Address, src: Address)
      requires Valid() && dst in objects && src in objects
      modifies this
      ensures Valid()
      ensures View() == old(View()).After(Op.CopyAssign(dst, src))
      ensures var was, now := old(View()).worths, View().worths;
              now.Keys == was.Keys && now[dst] == was[src] && OthersKept(was, now, {dst})
    {
      hide CountsExact, WordsMatchTypes, Worths;
      var tmp := CopyOf(src);
      Swap(tmp, dst);
      Destroy(tmp);
    }

    method MoveAssign(dst: Address, src: Address)
      requires Valid() && dst in objects && src in objects
      modifies this
      ensures Valid()
      ensures View() == old(View()).After(Op.MoveAssign(dst, src))
      ensures var was, now := old(View()).worths, View().worths;
              && now.Keys == was.Keys && now[dst] == was[src] && OthersKept(was, now, {dst, src})
              && (dst != src ==> now[src].ty.Empty?)
    {
      hide CountsExact, WordsMatchTypes, Worths;
      var tmp := MoveOf(src);
      Swap(tmp, dst);
      Destroy(tmp);
    }

    /**
     * Any sequence of operations: counts stay exact throughout, and the shared objects are worth what
     * unshared values would be worth.
     */
    method Run(ops: seq<Op>)
      requires Valid() && View().AllLegal(ops)
      modifies this
      ensures Valid()
      ensures View() == old(View()).AfterAll(ops)
      decreases |ops|
    {
      hide CountsExact, WordsMatchTypes, Worths;
      if ops == [] {
        return;
      }
      match ops[0] {
        case MakeNumber(info, ty, bits) => var _ := MakeNumber(info, ty, bits);
        case MakeBlob(info, ty, data) => var _ := MakeBlob(info, ty, data);
        case CopyOf(src) => var _ := CopyOf(src);
        case MoveOf(src) => var _ := MoveOf(src);
        case CopyAssign(dst, src) => CopyAssign(dst, src);
        case MoveAssign(dst, src) => MoveAssign(dst, src);
        case Swap(a, b) => Swap(a, b);
        case Destroy(a) => Destroy(a);
      }
      Run(ops[1..]);
    }

    /** Equality: same type and same bits, or same text; the description does not matter. */
    method Equal(a: Address, b: Address) returns (equal: bool)
      requires Valid() && a in objects && b in objects
      ensures var v, w := View().worths[a], View().worths[b];
              equal <==> v == w.(info := v.info)
    {
      var x, y := objects[a], objects[b];
      if x.ty != y.ty {
        return false;
      }
      if !AllocatesStorage(x.ty) {
        return x.word.bits == y.word.bits;
      }
      return payloads[x.word.payload].data == payloads[y.word.payload].data;
    }

    /** With every property gone no payload is left. */
    lemma NothingLeaks()
      requires Valid()
      ensures objects == map[] ==> payloads == map[]
      ensures forall q :: q in payloads <==> exists a :: a in objects && objects[a].word == Pointer(q)
    {
      forall q | q in payloads
        ensures exists a :: a in objects && objects[a].word == Pointer(q)
      {
        assert Pointing(objects, q) != {};
        var a :| a in Pointing(objects, q);
      }
    }
  }
}
