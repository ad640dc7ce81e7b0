/** The heap list of kernel/files/snvm/protocol/ese_data.c: a head that carries the running size and
    a singly linked chain of packets. Store appends at the tail, Get joins the packets into one fresh
    buffer and empties the list, Delete empties it. */
module EseData {
  import opened Bytes
  import opened Kmem

  class DataNode {
    const data: Buffer
    const size: nat
    var next: DataNode?

    constructor (data: Buffer, size: nat)
      ensures this.data == data && this.size == size && next == null
    {
      this.data, this.size := data, size;
      next := null;
    }
  }

  class DataList {
    const kmem: Allocator
    var size: nat
    var next: DataNode?
    ghost var nodes: seq<DataNode>

    ghost predicate Linked()
      reads this, nodes
    {
      && next == (if |nodes| > 0 then nodes[0] else null)
      && (forall i {:trigger nodes[i].next} :: 0 <= i < |nodes| - 1 ==> nodes[i].next == nodes[i + 1])
      && (|nodes| > 0 ==> nodes[|nodes| - 1].next == null)
    }

    ghost predicate Valid()
      reads this, nodes, kmem
    {
      && Linked()
      && Distinct(nodes)
      && BlocksOf(nodes) <= kmem.live
      && size == |Flatten(PacketsOf(nodes))|
    }

    /** The packets held, oldest first. */
    ghost function Packets(): (packets: seq<seq<byte>>)
      reads this
    {
      PacketsOf(nodes)
    }

    /** The objects the list owns: its nodes and their buffers. */
    ghost function Blocks(): set<object>
      reads this
    {
      BlocksOf(nodes)
    }

    ghost function Nodes(): (all: set<DataNode>)
      reads this
      ensures forall node :: node in all ==> node as object in Blocks()
    {
      NodesOf(nodes)
    }

    constructor (kmem: Allocator)
      ensures this.kmem == kmem && Valid() && nodes == [] && size == 0
    {
      this.kmem := kmem;
      size, next, nodes := 0, null, [];
    }

    /** Appends the first `count` bytes of `data`, copied into a fresh buffer or by adopting `data`. */
    method Store(data: Buffer, count: nat, copy: bool)
      requires Valid() && count <= |data.bytes|
      requires !copy ==> data in kmem.live && data !in Blocks()
      modifies this, kmem, Nodes()
      ensures Valid()
      ensures Packets() == old(Packets()) + [data.bytes[..count]]
      ensures old(Blocks()) <= Blocks() && (!copy ==> data in Blocks())
      ensures fresh(Blocks() - old(Blocks()) - if copy then {} else {data}) && fresh(Nodes() - old(Nodes()))
      ensures kmem.live == old(kmem.live) + Blocks()
    {
      var block := data;
      if copy {
        block := kmem.Malloc(data.bytes[..count]);
      }
      var newNode := new DataNode(block, count);
      kmem.Register(newNode);
      Append(newNode);
      assert block.bytes[..count] == data.bytes[..count];
      assert Blocks() == old(Blocks()) + {newNode, block} && old(Blocks()) <= old(kmem.live);
    }

    /** Links a node that is not on the list yet behind the last one. */
    method Append(node: DataNode)
      requires Valid() && node.next == null && node.size <= |node.data.bytes|
      requires node as object !in Blocks() && node.data as object !in Blocks()
      requires {node as object, node.data} <= kmem.live
      modifies this, Nodes(), node
      ensures Valid() && nodes == old(nodes) + [node]
      ensures Packets() == old(Packets()) + [node.data.bytes[..node.size]]
      ensures Blocks() == old(Blocks()) + {node, node.data}
    {
      NodesDiffer(nodes);
      OnList(nodes);
      Snoc(nodes, node);
      FlattenAppend(PacketsOf(nodes), Packet(node));
      Link(node);
      size := size + node.size;
    }

    method Link(node: DataNode)
      requires Linked() && node.next == null && node !in nodes
      requires forall i, j :: 0 <= i < j < |nodes| ==> nodes[i] != nodes[j]
      requires forall k :: k in nodes ==> k in Nodes()
      modifies this`next, this`nodes, Nodes()
      ensures Linked() && nodes == old(nodes) + [node]
    {
      if next == null {
        next := node;
      } else {
        var last := Last();
        last.next := node;
      }
      nodes := nodes + [node];
    }

    /** Walks to the node whose successor is null. */
    method Last() returns (last: DataNode)
      requires Linked() && next != null
      ensures |nodes| > 0 && last == nodes[|nodes| - 1]
    {
      last := next;
      ghost var at := 0;
      while last.next != null
        invariant at < |nodes| && last == nodes[at]
        invariant last.next == (if at + 1 < |nodes| then nodes[at + 1] else null)
        decreases |nodes| - at
      {
        last := last.next;
        at := at + 1;
      }
    }

    /** Frees every node and its buffer exactly once and leaves the list empty. */
    method Delete()
      requires Valid()
      modifies this, kmem
      ensures Valid() && nodes == [] && size == 0
      ensures kmem.live == old(kmem.live) - old(Blocks())
    {
      var cur := next;
      ghost var freed := 0;
      while cur != null
        modifies kmem
        invariant 0 <= freed <= |nodes|
        invariant Linked()
        invariant cur == (if freed < |nodes| then nodes[freed] else null)
        invariant kmem.live == old(kmem.live) - BlocksOf(nodes[..freed])
        decreases |nodes| - freed
      {
        var following := cur.next;
        assert following == if freed + 1 < |nodes| then nodes[freed + 1] else null;
        NotYetFreed(nodes, freed);
        kmem.Free(cur.data);
        kmem.Free(cur);
        assert nodes[..freed + 1][..freed] == nodes[..freed];
        cur := following;
        freed := freed + 1;
      }
      assert nodes[..freed] == nodes;
      next, size, nodes := null, 0, [];
    }

    /** Joins the packets into one fresh buffer. An empty total is an error and leaves the list alone. */
    method Get() returns (ok: bool, buffer: Buffer?)
      requires Valid()
      modifies this, kmem
      ensures Valid() && ok == (Flatten(old(Packets())) != [])
      ensures !ok ==> buffer == null && nodes == old(nodes) && kmem.live == old(kmem.live)
      ensures ok ==> fresh(buffer) && buffer.bytes == Flatten(old(Packets()))
      ensures ok ==> nodes == [] && kmem.live == old(kmem.live) - old(Blocks()) + {buffer}
    {
      if size == 0 {
        return false, null;
      }
      var joined := Join();
      buffer := kmem.Malloc(joined);
      Delete();
      ok := true;
    }

    /** Walks the chain and copies the packets one behind the other. */
    method Join() returns (joined: seq<byte>)
      requires Valid()
      ensures joined == Flatten(Packets())
    {
      var curNode := next;
      joined := [];
      ghost var at := 0;
      while curNode != null
        invariant 0 <= at <= |nodes|
        invariant curNode == (if at < |nodes| then nodes[at] else null)
        invariant joined == Flatten(PacketsOf(nodes[..at]))
        decreases |nodes| - at
      {
        assert nodes[..at + 1][..at] == nodes[..at];
        NotYetFreed(nodes, at);
        FlattenAppend(PacketsOf(nodes[..at]), Packet(curNode));
        joined := joined + curNode.data.bytes[..curNode.size];
        assert curNode.next == if at + 1 < |nodes| then nodes[at + 1] else null;
        curNode := curNode.next;
        at := at + 1;
      }
      assert nodes[..at] == nodes;
    }
  }

  ghost function Packet(node: DataNode): seq<byte>
  {
    if node.size <= |node.data.bytes| then node.data.bytes[..node.size] else []
  }

  ghost function PacketsOf(nodes: seq<DataNode>): (packets: seq<seq<byte>>)
    ensures |packets| == |nodes|
  {
    if nodes == [] then [] else PacketsOf(nodes[..|nodes| - 1]) + [Packet(nodes[|nodes| - 1])]
  }

  ghost function BlocksOf(nodes: seq<DataNode>): (blocks: set<object>)
  {
    if nodes == [] then {} else
      BlocksOf(nodes[..|nodes| - 1]) + {nodes[|nodes| - 1], nodes[|nodes| - 1].data}
  }

  ghost function NodesOf(nodes: seq<DataNode>): (all: set<DataNode>)
    ensures forall node :: node in all ==> node as object in BlocksOf(nodes)
  {
    if nodes == [] then {} else NodesOf(nodes[..|nodes| - 1]) + {nodes[|nodes| - 1]}
  }

  /** No node and no buffer occurs twice, and every packet lies inside its buffer. */
  ghost predicate Distinct(nodes: seq<DataNode>)
  {
    nodes != [] ==>
      var rest, last := nodes[..|nodes| - 1], nodes[|nodes| - 1];
      && Distinct(rest)
      && last as object !in BlocksOf(rest) && last.data as object !in BlocksOf(rest)
      && last.size <= |last.data.bytes|
  }

  lemma {:induction false} OnList(nodes: seq<DataNode>)
    ensures forall k :: k in nodes ==> k in NodesOf(nodes) && k as object in BlocksOf(nodes)
  {
    if nodes != [] {
      var rest := nodes[..|nodes| - 1];
      OnList(rest);
      assert nodes == rest + [nodes[|nodes| - 1]];
    }
  }

  lemma {:induction false} NodesDiffer(nodes: seq<DataNode>)
    requires Distinct(nodes)
    ensures forall i, j :: 0 <= i < j < |nodes| ==> nodes[i] != nodes[j]
  {
    if nodes != [] {
      var rest := nodes[..|nodes| - 1];
      NodesDiffer(rest);
      OnList(rest);
      forall i, j | 0 <= i < j < |nodes| ensures nodes[i] != nodes[j] {
        assert nodes[i] == rest[i] && rest[i] in rest;
        assert j < |rest| ==> nodes[j] == rest[j];
      }
    }
  }

  /** One node more: its packet, its blocks, and still no block twice. */
  lemma Snoc(nodes: seq<DataNode>, node: DataNode)
    requires Distinct(nodes) && node.size <= |node.data.bytes|
    requires node as object !in BlocksOf(nodes) && node.data as object !in BlocksOf(nodes)
    ensures var longer := nodes + [node];
      && Distinct(longer) && BlocksOf(longer) == BlocksOf(nodes) + {node as object, node.data as object}
      && PacketsOf(longer) == PacketsOf(nodes) + [Packet(node)]
  {
    var longer := nodes + [node];
    assert longer[..|longer| - 1] == nodes && longer[|longer| - 1] == node;
  }

  lemma {:induction false} NotYetFreed(nodes: seq<DataNode>, k: nat)
    requires k < |nodes| && Distinct(nodes)
    ensures nodes[k] as object !in BlocksOf(nodes[..k]) && nodes[k].data as object !in BlocksOf(nodes[..k])
    ensures nodes[k] as object in BlocksOf(nodes) && nodes[k].data as object in BlocksOf(nodes)
    ensures nodes[k].size <= |nodes[k].data.bytes|
    decreases |nodes|
  {
    if k < |nodes| - 1 {
      NotYetFreed(nodes[..|nodes| - 1], k);
      assert nodes[..|nodes| - 1][..k] == nodes[..k];
    }
  }
}
