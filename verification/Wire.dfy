/**
 The pipe between the daemon and its configuration reader, one message at a time.
 */
module Wire {

  datatype Item = Num(n: int) | Text(s: string) | Data(b: seq<int>)

  /** A string or array of this size or more is not taken off the pipe. */
  const MAX_LENGTH := 0x10000

  lemma {:induction false} ItemFirst(x: Item, rest: seq<Item>)
    ensures ([x] + rest)[0] == x && ([x] + rest)[1..] == rest
  {
  }

  /** The messages that the daemon has not read yet, and how much of its block for characters is filled. */
  class Getter {
    var queue: seq<Item>
    var cptr: nat

    constructor (items: seq<Item>)
      ensures queue == items && cptr == 0
    {
      queue, cptr := items, 0;
    }

    method RecvInt(ghost rest: seq<Item>) returns (n: int)
      requires queue != [] && queue[0].Num? && queue[1..] == rest
      modifies this`queue
      ensures n == old(queue[0]).n && queue == rest
    {
      n, queue := queue[0].n, queue[1..];
    }

    /** gRecvStrBuf(): the string and its terminator go into the block. */
    method RecvStrBuf(ghost rest: seq<Item>) returns (s: string)
      requires queue != [] && queue[0].Text? && |queue[0].s| + 1 < MAX_LENGTH && queue[1..] == rest
      modifies this
      ensures s == old(queue[0]).s && queue == rest && cptr == old(cptr) + |s| + 1
    {
      s := queue[0].s;
      queue, cptr := queue[1..], cptr + |s| + 1;
    }
  }
}
