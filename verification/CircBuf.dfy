/**
 The ring buffer of include/util.hh.  Its two copy loops assert that a chunk ends
 before the last slot (`offset + n < capacity`), although the algorithm only
 needs `offset + n <= capacity`; `strict` chooses between the assertion as it is
 in the code and the one that the algorithm needs.  A failed assertion halts.
 */
module CircBuf {
  import opened Wrappers

  datatype Ret = Success | NoMem | InvalidLength | Null | Halted

  /** The contents of a ring, oldest first. */
  function Window<T>(raw: seq<T>, start: nat, length: nat): (w: seq<T>)
    requires length <= |raw| && (|raw| > 0 ==> start < |raw|)
    ensures |w| == length
  {
    seq(length, i requires 0 <= i < length => raw[(start + i) % |raw|])
  }

  /** Wrap-around is one subtraction: positions stay below twice the capacity. */
  lemma Wrap(p: nat, n: nat)
    requires 0 < n && p < 2 * n
    ensures p % n == if p < n then p else p - n
  {
  }

  lemma WindowAt<T>(raw: seq<T>, start: nat, length: nat, i: nat)
    requires length <= |raw| && start < |raw| && i < length
    ensures Window(raw, start, length)[i] == raw[if start + i < |raw| then start + i else start + i - |raw|]
  {
    Wrap(start + i, |raw|);
  }

  /** Storing data in the free slots after the window appends it. */
  lemma PushAppends<T>(raw: seq<T>, raw': seq<T>, start: nat, length: nat, data: seq<T>)
    requires |raw| == |raw'| > 0 && start < |raw| && length + |data| <= |raw|
    requires forall i :: 0 <= i < |raw| && !Stored(|raw|, start, length, |data|, i) ==> raw'[i] == raw[i]
    requires forall j :: 0 <= j < |data| ==> raw'[Slot(|raw|, start, length + j)] == data[j]
    ensures Window(raw', start, length + |data|) == Window(raw, start, length) + data
  {
    forall i | 0 <= i < length + |data|
      ensures Window(raw', start, length + |data|)[i] == (Window(raw, start, length) + data)[i]
    {
      WindowAt(raw', start, length + |data|, i);
      if i < length {
        WindowAt(raw, start, length, i);
      } else {
        assert raw'[Slot(|raw|, start, length + (i - length))] == data[i - length];
      }
    }
  }

  /** The slot of the element at distance d from the start. */
  function Slot(n: nat, start: nat, d: nat): (s: nat)
    requires start < n && d <= n
    ensures s < n
  {
    if start + d < n then start + d else start + d - n
  }

  /** Slot i receives an element when k elements are pushed. */
  predicate Stored(n: nat, start: nat, length: nat, k: nat, i: nat)
    requires start < n && length + k <= n
  {
    var end := start + length;
    if end < n then end <= i < end + k || i + n < end + k else end - n <= i < end - n + k
  }

  /** Advancing the start drops a prefix. */
  lemma PopDrops<T>(raw: seq<T>, start: nat, length: nat, n: nat)
    requires |raw| > 0 && start < |raw| && n <= length <= |raw|
    ensures Window(raw, (start + n) % |raw|, length - n) == Window(raw, start, length)[n..]
  {
    Wrap(start + n, |raw|);
    var start' := (start + n) % |raw|;
    forall i | 0 <= i < length - n
      ensures Window(raw, start', length - n)[i] == Window(raw, start, length)[n..][i]
    {
      WindowAt(raw, start', length - n, i);
      WindowAt(raw, start, length, n + i);
    }
  }

  // ----- what the strict assertion costs

  datatype Pos = Pos(start: nat, length: nat)

  /** An operation on at least one element that passes the length checks. */
  datatype Op = Pushed(n: nat) | Popped(n: nat) | Discarded(n: nat)

  predicate Legal(cap: nat, p: Pos, op: Op) {
    op.n > 0 && if op.Pushed? then p.length + op.n <= cap else op.n <= p.length
  }

  /** The copied chunk ends in the last slot or wraps; a discard copies nothing. */
  predicate ReachesLastSlot(cap: nat, p: Pos, op: Op) {
    match op
    case Pushed(n) => cap > 0 && (p.start + p.length) % cap + n >= cap
    case Popped(n) => p.start + n >= cap
    case Discarded(_) => false
  }

  function After(cap: nat, p: Pos, op: Op): Pos
    requires Legal(cap, p, op)
  {
    match op
    case Pushed(n) => p.(length := p.length + n)
    case _ => Pos(if cap == 0 then 0 else (p.start + op.n) % cap, p.length - op.n)
  }

  function Total(ops: seq<Op>): nat {
    if ops == [] then 0 else Total(ops[..|ops| - 1]) + if ops[|ops| - 1].Pushed? then ops[|ops| - 1].n else 0
  }

  /** The positions of a ring that starts empty, one per operation. */
  ghost predicate Uses(cap: nat, ps: seq<Pos>, ops: seq<Op>) {
    && |ps| == |ops| + 1 && ps[0] == Pos(0, 0)
    && forall i :: 0 <= i < |ops| ==> Legal(cap, ps[i], ops[i]) && ps[i + 1] == After(cap, ps[i], ops[i])
  }

  /**
   With the assertion as it is in the code a ring can be used once: a sequence of
   operations on a new ring runs without tripping the assertion if and only if
   the number of elements ever pushed is less than the capacity.
   */
  lemma {:induction false} StrictRingIsOneShot(cap: nat, ps: seq<Pos>, ops: seq<Op>)
    requires Uses(cap, ps, ops)
    ensures (forall i :: 0 <= i < |ops| ==> !ReachesLastSlot(cap, ps[i], ops[i])) <==> ops == [] || Total(ops) < cap
    ensures Total(ops) < cap ==> ps[|ops|].start + ps[|ops|].length == Total(ops)
  {
    var n := |ops|;
    if n > 0 {
      var op := ops[n - 1];
      StrictRingIsOneShot(cap, ps[..n], ops[..n - 1]);
      assert Legal(cap, ps[n - 1], op);
      assert n == 1 ==> op.Pushed?;
      if Total(ops[..n - 1]) < cap {
        Wrap(ps[n - 1].start + ps[n - 1].length, cap);
        if !op.Pushed? { Wrap(ps[n - 1].start + op.n, cap); }
      }
    }
  }

  class CircBuf<T(0)> {
    const strict: bool
    const raw: array<T>
    var start: nat
    var length: nat

    ghost predicate Valid()
      reads this
    {
      length <= raw.Length && (if raw.Length == 0 then start == 0 else start < raw.Length)
    }

    ghost function Contents(): (c: seq<T>)
      reads this, raw
      requires Valid()
      ensures |c| == length
    {
      Window(raw[..], start, length)
    }

    constructor (capacity: nat, strict: bool)
      ensures Valid() && fresh(raw) && raw.Length == capacity && this.strict == strict
      ensures Contents() == [] && start == 0
    {
      this.strict := strict;
      raw := new T[capacity];
      start, length := 0, 0;
    }

    function Position(): Pos
      reads this
    {
      Pos(start, length)
    }

    /** The assertion in write() and read(). */
    predicate InBounds(offset: nat, n: nat) {
      if strict then offset + n < raw.Length else offset + n <= raw.Length
    }

    /** Where the next element is pushed. */
    function End(): nat
      reads this
    {
      if raw.Length == 0 then 0 else (start + length) % raw.Length
    }

    method Write(data: seq<T>, offset: nat) returns (ok: bool)
      requires Valid() && offset + |data| <= raw.Length
      modifies raw
      ensures ok <==> InBounds(offset, |data|)
      ensures forall i :: 0 <= i < raw.Length ==>
                raw[i] == if ok && offset <= i < offset + |data| then data[i - offset] else old(raw[i])
    {
      if !InBounds(offset, |data|) { return false; }
      for i := 0 to |data|
        invariant forall k :: 0 <= k < raw.Length ==>
                    raw[k] == if offset <= k < offset + i then data[k - offset] else old(raw[k])
      {
        raw[offset + i] := data[i];
      }
      return true;
    }

    method Read(data: array<T>, at: nat, n: nat, offset: nat) returns (ok: bool)
      requires Valid() && data != raw && at + n <= data.Length && offset + n <= raw.Length
      modifies data
      ensures ok <==> InBounds(offset, n)
      ensures forall i :: 0 <= i < data.Length ==>
                data[i] == if ok && at <= i < at + n then raw[offset + i - at] else old(data[i])
    {
      if !InBounds(offset, n) { return false; }
      for i := 0 to n
        invariant forall k :: 0 <= k < data.Length ==>
                    data[k] == if at <= k < at + i then raw[offset + k - at] else old(data[k])
      {
        data[at + i] := raw[offset + i];
      }
      return true;
    }

    /** `data` is None for a null pointer. */
    method Push(data: Option<seq<T>>, n: nat) returns (ret: Ret)
      requires Valid() && (data.Some? ==> |data.value| == n)
      modifies this`length, raw
      ensures Valid()
      ensures !ret.InvalidLength? && (n == 0 ==> ret.Success?)
      ensures ret.NoMem? <==> n > 0 && n > raw.Length - old(length)
      ensures ret.Null? <==> 0 < n <= raw.Length - old(length) && data.None?
      // the code's assertion stops a chunk that ends in the last slot
      ensures ret.Halted? <==> strict && 0 < n <= raw.Length - old(length) && data.Some? && old(End()) + n >= raw.Length
      ensures Contents() == if ret.Success? && n > 0 then old(Contents()) + data.value else old(Contents())
      ensures ret.Success? && n > 0 ==> Position() == After(raw.Length, old(Position()), Pushed(n))
    {
      if n == 0 { return Success; }
      if n > raw.Length - length { return NoMem; }
      if data.None? { return Null; }

      var end := (start + length) % raw.Length;
      Wrap(start + length, raw.Length);
      var copy := Min(n, raw.Length - end);
      ghost var before := raw[..];

      var ok := Write(data.value[..copy], end);
      if !ok {
        assert raw[..] == before;
        return Halted;
      }
      if copy < n {
        ok := Write(data.value[copy..], 0);
      }
      PushAppends(before, raw[..], start, length, data.value);
      length := length + n;
      return Success;
    }

    /** Copies n elements into `data` (null: no pointer) and removes them. */
    method Pop(data: array?<T>, n: nat) returns (ret: Ret)
      requires Valid() && data != raw && (data != null ==> n <= data.Length)
      modifies this`start, this`length, data
      ensures Valid()
      ensures !ret.NoMem? && (ret.InvalidLength? <==> n > old(length))
      ensures ret.Null? <==> 0 < n <= old(length) && data == null
      ensures ret.Halted? <==> strict && 0 < n <= old(length) && data != null && old(start) + n >= raw.Length
      ensures ret.Success? ==> Contents() == old(Contents())[n..] && (n > 0 ==> data[..n] == old(Contents())[..n])
      ensures !ret.Success? ==> Contents() == old(Contents())
      ensures ret.Success? && n > 0 ==> Position() == After(raw.Length, old(Position()), Popped(n))
      ensures data != null && ret.Success? ==> data[n..] == old(data[n..])
    {
      if n == 0 { return Success; }
      if n > length { return InvalidLength; }
      if data == null { return Null; }

      var copy := Min(n, raw.Length - start);
      var ok := Read(data, 0, copy, start);
      if !ok { return Halted; }
      if copy < n {
        ok := Read(data, copy, n - copy, 0);
      }
      forall i | 0 <= i < n ensures data[i] == Contents()[i] {
        WindowAt(raw[..], start, length, i);
      }
      PopDrops(raw[..], start, length, n);
      length := length - n;
      start := (start + n) % raw.Length;
      return Success;
    }

    method PopSome(data: array?<T>, n: nat) returns (ret: Ret, npop: nat)
      requires Valid() && data != raw && (data != null ==> n <= data.Length)
      modifies this`start, this`length, data
      ensures Valid() && npop == Min(n, old(length))
      ensures ret.Success? || ret.Null? || ret.Halted?
      ensures ret.Null? <==> npop > 0 && data == null
      ensures ret.Halted? <==> strict && npop > 0 && data != null && old(start) + npop >= raw.Length
      ensures ret.Success? ==> Contents() == old(Contents())[npop..]
      ensures ret.Success? && npop > 0 ==> data != null && data[..npop] == old(Contents())[..npop]
      ensures !ret.Success? ==> Contents() == old(Contents())
    {
      npop := Min(n, length);
      ret := Pop(data, npop);
    }

    /** `place`: the pointer for the element is not null. */
    method Peek(place: bool) returns (ret: Ret, x: Option<T>)
      requires Valid()
      ensures ret == if !place then Null else if Contents() == [] then InvalidLength else Success
      ensures x == if ret.Success? then Some(Contents()[0]) else None
    {
      if !place {
        return Null, None;
      }
      if length == 0 {
        return InvalidLength, None;
      }
      WindowAt(raw[..], start, length, 0);
      return Success, Some(raw[start]);
    }

    method Discard(n: nat) returns (ret: Ret)
      requires Valid()
      modifies this`start, this`length
      ensures Valid()
      ensures ret == if n <= old(length) then Success else InvalidLength
      ensures Contents() == if n <= old(length) then old(Contents())[n..] else old(Contents())
      ensures ret.Success? && n > 0 ==> Position() == After(raw.Length, old(Position()), Discarded(n))
    {
      if n == 0 { return Success; }
      if n > length { return InvalidLength; }
      PopDrops(raw[..], start, length, n);
      length := length - n;
      start := (start + n) % raw.Length;
      return Success;
    }
  }
}
