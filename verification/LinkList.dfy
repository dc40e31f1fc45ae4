/** The chunked linked list that holds the values of one key. */
module LinkLists {

  const CHUNK: nat := 8

  class LinkNode<T(0)> {
    const data: array<T>
    var elemNum: nat
    var next: LinkNode?<T>

    constructor ()
      ensures fresh(data) && data.Length == CHUNK && elemNum == 0 && next == null
    {
      data := new T[CHUNK];
      elemNum, next := 0, null;
    }

    /** False if the chunk is full. */
    method AddElement(elem: T) returns (ok: bool)
      requires data.Length == CHUNK
      modifies this`elemNum, data
      ensures ok == (old(elemNum) < CHUNK)
      ensures elemNum == if ok then old(elemNum) + 1 else old(elemNum)
      ensures data[..] == if ok then old(data[..])[old(elemNum) := elem] else old(data[..])
    {
      ok := elemNum < CHUNK;
      if ok {
        data[elemNum] := elem;
        elemNum := elemNum + 1;
      }
    }
  }

  class LinkList<T(0)> {
    var head: LinkNode?<T>
    var tail: LinkNode?<T>
    var nodeCount: nat
    ghost var chunks: seq<LinkNode<T>>
    ghost var contents: seq<T>
    ghost var Repr: set<object>

    /** The chunks are distinct, linked in order, and all but the last are full. */
    ghost predicate Linked()
      reads this, Repr
    {
      && (forall c :: 0 <= c < |chunks| ==>
           chunks[c] in Repr && chunks[c].data in Repr && chunks[c].data.Length == CHUNK && chunks[c].elemNum <= CHUNK)
      && (forall c :: 0 <= c < |chunks| - 1 ==> chunks[c].next == chunks[c + 1] && chunks[c].elemNum == CHUNK)
      && (forall c, e :: 0 <= c < e < |chunks| ==> chunks[c] != chunks[e] && chunks[c].data != chunks[e].data)
      && (if chunks == [] then head == null && tail == null
          else head == chunks[0] && tail == chunks[|chunks| - 1] && tail.next == null)
    }

    /** Element 8 * c + j of the list is in slot j of chunk c. The last chunk may be empty. */
    ghost predicate Chunked()
      reads this, Repr
    {
      && this in Repr
      && Linked()
      && nodeCount == |contents|
      && |contents| == (if chunks == [] then 0 else CHUNK * (|chunks| - 1) + chunks[|chunks| - 1].elemNum)
      && forall c, j :: 0 <= c < |chunks| && 0 <= j < chunks[c].elemNum ==> chunks[c].data[j] == contents[CHUNK * c + j]
    }

    /** A list built by AddElement: a chunk is linked only to receive an element. */
    ghost predicate Valid()
      reads this, Repr
      ensures Valid() ==> this in Repr
    {
      Chunked() && (chunks != [] ==> chunks[|chunks| - 1].elemNum > 0)
    }

    constructor ()
      ensures Valid() && fresh(Repr) && contents == [] && chunks == []
    {
      head, tail, nodeCount := null, null, 0;
      chunks, contents, Repr := [], [], {this};
    }

    method AddElement(elem: T)
      requires Valid() || Chunked()
      modifies Repr
      ensures Valid() && fresh(Repr - old(Repr))
      ensures contents == old(contents) + [elem]
    {
      if head == null {
        FirstChunk();
      } else if tail.elemNum >= CHUNK {
        AppendChunk();
      }
      AddToTail(elem);
    }

    method FirstChunk()
      requires Chunked() && head == null
      modifies this
      ensures Chunked() && fresh(Repr - old(Repr))
      ensures contents == old(contents) && chunks != [] && tail.elemNum == 0
    {
      head := new LinkNode();
      tail := head;
      chunks := [head];
      Repr := Repr + {head, head.data};
    }

    /** Links a new, empty chunk behind the full ones. */
    method AppendChunk()
      requires Chunked() && head != null && tail.elemNum == CHUNK
      modifies this, tail`next
      ensures Chunked() && fresh(Repr - old(Repr))
      ensures contents == old(contents) && chunks != [] && tail.elemNum == 0
    {
      var node := new LinkNode();
      LinkChunk(node);
      forall c, j | 0 <= c < |chunks| && 0 <= j < chunks[c].elemNum
        ensures chunks[c].data[j] == contents[CHUNK * c + j]
      {
        assert c < |chunks| - 1 && chunks[c] == old(chunks)[c];
      }
    }

    method LinkChunk(node: LinkNode<T>)
      requires this in Repr && Linked() && chunks != [] && tail.elemNum == CHUNK
      requires node !in Repr && node.data !in Repr && node.data.Length == CHUNK && node.elemNum == 0
               && node.next == null
      modifies this`tail, this`chunks, this`Repr, tail`next
      ensures Linked() && this in Repr && chunks == old(chunks) + [node] && tail == node
              && Repr == old(Repr) + {node, node.data}
    {
      tail.next := node;
      tail := node;
      chunks := chunks + [node];
      Repr := Repr + {node, node.data};
    }

    method AddToTail(elem: T)
      requires Chunked() && chunks != [] && tail.elemNum < CHUNK
      modifies this`nodeCount, this`contents, tail`elemNum, tail.data
      ensures Valid() && contents == old(contents) + [elem]
    {
      var _ := tail.AddElement(elem);
      nodeCount := nodeCount + 1;
      contents := contents + [elem];
      forall c, j | 0 <= c < |chunks| && 0 <= j < chunks[c].elemNum
        ensures chunks[c].data[j] == contents[CHUNK * c + j]
      {
        if c < |chunks| - 1 {
          assert chunks[c] != tail && chunks[c].data != tail.data;
          assert chunks[c].data[j] == old(chunks[c].data[j]);
        } else {
          assert tail.data[..][j] == tail.data[j];
        }
      }
    }

    /** Forgets all elements without releasing their chunks. */
    method Clear()
      requires this in Repr
      modifies this
      ensures Valid() && contents == [] && chunks == [] && Repr == old(Repr)
    {
      head, tail, nodeCount := null, null, 0;
      chunks, contents := [], [];
    }
  }
}
