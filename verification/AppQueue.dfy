/** The action queue and the heap blocks that travel through it (include/userapp/thread.hh). */
module AppQueue {
  import opened Wrappers
  import opened AppUpload

  const WRITE_TEMPBUF_MAX_LEN := 128

  /** A queued action; only a write carries a heap block. */
  datatype Item = Write(offset: nat, block: nat, length: nat) | Plain(action: Action)

  datatype QueueResult = Queued | BadLength | NullPointer | NoMem

  class ActionQueue {
    var queue: seq<Item>
    var heap: map<nat, seq<byte>>      // live blocks of queue_write, by address
    var accepted: set<nat>             // history: blocks of accepted writes
    var freed: set<nat>                // history: blocks given back by the thread
    var refused: set<nat>              // history: blocks of writes that the queue refused
    var nextBlock: nat

    static predicate Holds(items: seq<Item>, block: nat) {
      exists i :: 0 <= i < |items| && Carries(items[i], block)
    }

    static predicate Carries(item: Item, block: nat) {
      item.Write? && item.block == block
    }

    /** Every accepted block is queued exactly once and live, or freed; nothing else is live but refused blocks. */
    ghost predicate Valid()
      reads this
    {
      && (forall b :: b in accepted <==> Holds(queue, b) || b in freed)
      && (forall b :: Holds(queue, b) ==> b !in freed)
      && (forall i, j :: 0 <= i < j < |queue| && queue[i].Write? && queue[j].Write? ==>
            queue[i].block != queue[j].block)
      && (forall i :: 0 <= i < |queue| ==> Live(queue[i], heap))
      && (forall b :: b in heap <==> Holds(queue, b) || b in refused)
      && accepted !! refused
      && forall b :: b in accepted || b in refused ==> b < nextBlock
    }

    static predicate Live(item: Item, heap: map<nat, seq<byte>>) {
      match item
      case Write(_, block, length) => block in heap && |heap[block]| == length
      case Plain(a) => !a.WriteChunk?
    }

    /** What the thread will get for an item. */
    static function Meaning(item: Item, heap: map<nat, seq<byte>>): Action
      requires Live(item, heap)
    {
      match item
      case Write(offset, block, _) => WriteChunk(Chunk(offset, heap[block]))
      case Plain(a) => a
    }

    /** The queued actions with their bytes, oldest first. */
    ghost function Pending(): (acts: seq<Action>)
      reads this
      requires Valid()
      ensures |acts| == |queue|
    {
      Meanings(queue, heap)
    }

    static function Meanings(items: seq<Item>, heap: map<nat, seq<byte>>): (acts: seq<Action>)
      requires forall i :: 0 <= i < |items| ==> Live(items[i], heap)
      ensures |acts| == |items|
    {
      seq(|items|, i requires 0 <= i < |items| => Meaning(items[i], heap))
    }

    constructor ()
      ensures Valid() && Pending() == [] && accepted == freed == refused == {}
    {
      queue, heap, accepted, freed, refused, nextBlock := [], map[], {}, {}, {}, 0;
    }

    /**
     `buffer` is None for a null pointer; `memory`: pvPortMalloc succeeds; `room`:
     the queue takes the action (a task waits for room, an interrupt cannot).
     */
    method QueueWrite(offset: nat, buffer: Option<seq<byte>>, length: nat, memory: bool, room: bool)
        returns (ret: QueueResult)
      requires Valid() && (buffer.Some? ==> |buffer.value| >= length)
      modifies this
      ensures Valid()
      ensures ret.BadLength? <==> length > WRITE_TEMPBUF_MAX_LEN
      ensures ret.NullPointer? <==> length <= WRITE_TEMPBUF_MAX_LEN && buffer.None?
      ensures ret.Queued? <==> length <= WRITE_TEMPBUF_MAX_LEN && buffer.Some? && memory && room
      ensures Pending() == old(Pending()) +
                if ret.Queued? then [WriteChunk(Chunk(offset, buffer.value[..length]))] else []
      ensures ret.Queued? ==>
        exists b :: b !in old(accepted) + old(refused) && accepted == old(accepted) + {b} && refused == old(refused)
      ensures !ret.Queued? ==> accepted == old(accepted)
      ensures freed == old(freed)
      // a block is lost exactly when the queue refuses an allocated write
      ensures refused != old(refused) <==>
        length <= WRITE_TEMPBUF_MAX_LEN && buffer.Some? && memory && !room
    {
      if length > WRITE_TEMPBUF_MAX_LEN { return BadLength; }
      if buffer.None? { return NullPointer; }
      if !memory { return NoMem; }
      var b := nextBlock;
      nextBlock := nextBlock + 1;
      heap := heap[b := buffer.value[..length]];
      if !room {
        refused := refused + {b};
        return NoMem;
      }
      queue := queue + [Write(offset, b, length)];
      accepted := accepted + {b};
      HoldsAppend(old(queue), Write(offset, b, length));
      return Queued;
    }

    /** Erase, begin, commit, run and the rest. */
    method QueuePlain(a: Action, room: bool) returns (ret: QueueResult)
      requires Valid() && !a.WriteChunk?
      modifies this`queue
      ensures Valid() && ret == if room then Queued else NoMem
      ensures Pending() == old(Pending()) + if room then [a] else []
    {
      if !room { return NoMem; }
      queue := queue + [Plain(a)];
      HoldsAppend(old(queue), Plain(a));
      return Queued;
    }

    static lemma HoldsAppend(items: seq<Item>, item: Item)
      ensures forall b :: Holds(items + [item], b) <==> Holds(items, b) || Carries(item, b)
    {
      forall b | Holds(items, b) ensures Holds(items + [item], b) {
        var i :| 0 <= i < |items| && Carries(items[i], b);
        assert Carries((items + [item])[i], b);
      }
      assert (items + [item])[|items|] == item;
    }

    static lemma HoldsRest(items: seq<Item>)
      requires items != []
      ensures forall b :: Holds(items, b) <==> Holds(items[1..], b) || Carries(items[0], b)
    {
      forall b | Holds(items, b) && !Carries(items[0], b) ensures Holds(items[1..], b) {
        var i :| 0 <= i < |items| && Carries(items[i], b);
        assert Carries(items[1..][i - 1], b);
      }
      forall b | Holds(items[1..], b) ensures Holds(items, b) {
        var i :| 0 <= i < |items| - 1 && Carries(items[1..][i], b);
        assert Carries(items[i + 1], b);
      }
    }

    /** The blocks that receiving this item gives back. */
    static function Given(item: Item): set<nat> {
      if item.Write? then {item.block} else {}
    }

    /** The thread takes the oldest action; a write's bytes are used and its block is freed. */
    method Receive() returns (a: Action)
      requires Valid() && queue != []
      modifies this
      ensures Valid() && [a] + Pending() == old(Pending())
      ensures accepted == old(accepted) && refused == old(refused)
      ensures Given(old(queue)[0]) !! old(freed) && Given(old(queue)[0]) <= old(heap).Keys
      ensures freed == old(freed) + Given(old(queue)[0]) && heap == old(heap) - Given(old(queue)[0])
    {
      var item := queue[0];
      a := Meaning(item, heap);
      HoldsRest(queue);
      assert item.Write? ==> Carries(item, item.block);
      queue := queue[1..];
      heap := heap - Given(item);
      freed := freed + Given(item);
      forall i | 0 <= i < |queue| ensures Live(queue[i], heap) && Meaning(queue[i], heap) == old(Pending())[i + 1] {
        assert queue[i] == old(queue)[i + 1];
      }
    }

    /** Once the queue is empty every accepted block has been freed, and only refused blocks are live. */
    lemma EmptyQueueFreedEverything()
      requires Valid() && queue == []
      ensures accepted == freed && heap.Keys == refused
    {
    }
  }
}
