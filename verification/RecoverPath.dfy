/** Building the path of a recovered object by following parent links that may
    form a cycle: one pass to size the buffer, one to fill it. */
module RecoverPath {
  import opened Common

  const ROOT_OBJID: nat := 1
  const STRLEN_OBJID: nat := 22
  const STRLEN_PFSID: nat := 8
  const NUL: char := '\0'

  const DIGITS: string := "0123456789abcdef"

  /** printf's zero-padded digits. */
  function Digits(n: nat, base: nat, width: nat): (s: string)
    requires 2 <= base <= 16
    ensures |s| == width && NUL !in s
  {
    if width == 0 then "" else Digits(n / base, base, width - 1) + [DIGITS[n % base]]
  }

  function PfsName(pfs: nat): (s: string)
    ensures |s| == STRLEN_PFSID && NUL !in s
  {
    "PFS" + Digits(pfs, 10, 5)
  }

  function ObjName(obj: nat): (s: string)
    ensures |s| == STRLEN_OBJID && NUL !in s
  {
    "obj_0x" + Digits(obj, 16, 16)
  }

  class Dict {
    const objId: nat
    const pfsId: nat
    var parent: Dict?
    var name: Option<string>
    var traversed: bool

    constructor (objId: nat, pfsId: nat)
      ensures this.objId == objId && this.pfsId == pfsId && parent == null && name == None && !traversed
    {
      this.objId, this.pfsId := objId, pfsId;
      parent, name, traversed := null, None, false;
    }
  }

  /** The nodes are closed under parents, and names are C strings. */
  ghost predicate Closed(nodes: set<Dict>)
    reads nodes`parent, nodes`name
  {
    forall d <- nodes ::
      (d.parent != null ==> d.parent in nodes) && (d.name.Some? ==> NUL !in d.name.value)
  }

  /** The nodes from `d` up to the last before one in `seen`. */
  ghost function Chain(nodes: set<Dict>, d: Dict, seen: set<Dict>): seq<Dict>
    requires d in nodes && d !in seen && Closed(nodes)
    reads nodes`parent, nodes`name
    decreases nodes - seen
  {
    if d.parent == null || d.parent in seen + {d} then [d]
    else [d] + Chain(nodes, d.parent, seen + {d})
  }

  /** The path element of a node. */
  function Element(d: Dict, pfs: nat): string
    reads d`name
  {
    if d.objId == ROOT_OBJID then PfsName(pfs)
    else if d.name.Some? then d.name.value
    else ObjName(d.objId)
  }

  ghost function Text(chain: seq<Dict>, dir: string, pfs: nat): string
    reads (set d <- chain)`name
  {
    if chain == [] then dir else Text(chain[1..], dir, pfs) + "/" + Element(chain[0], pfs)
  }

  /** No node is visited twice, however the parents are linked. */
  lemma {:induction false} ChainDistinct(nodes: set<Dict>, d: Dict, seen: set<Dict>)
    requires d in nodes && d !in seen && Closed(nodes)
    ensures var c := Chain(nodes, d, seen);
            c[0] == d && (forall x <- c :: x in nodes && x !in seen) &&
            (forall i, j | 0 <= i < j < |c| :: c[i] != c[j])
    decreases nodes - seen
  {
    if d.parent != null && d.parent !in seen + {d} {
      ChainDistinct(nodes, d.parent, seen + {d});
    }
  }

  /** The path, by the recursion of the passes. */
  ghost function Path(nodes: set<Dict>, d: Dict, seen: set<Dict>, dir: string, pfs: nat): string
    requires d in nodes && d !in seen && Closed(nodes)
    reads nodes`parent, nodes`name
    decreases nodes - seen
  {
    (if d.parent == null || d.parent in seen + {d} then dir else Path(nodes, d.parent, seen + {d}, dir, pfs)) +
    "/" + Element(d, pfs)
  }

  /** It is the target directory and the elements of the chain, topmost first. */
  lemma {:induction false} PathIsText(nodes: set<Dict>, d: Dict, seen: set<Dict>, dir: string, pfs: nat)
    requires d in nodes && d !in seen && Closed(nodes)
    ensures Path(nodes, d, seen, dir, pfs) == Text(Chain(nodes, d, seen), dir, pfs)
    decreases nodes - seen
  {
    var c := Chain(nodes, d, seen);
    if d.parent != null && d.parent !in seen + {d} {
      PathIsText(nodes, d.parent, seen + {d}, dir, pfs);
      assert c[1..] == Chain(nodes, d.parent, seen + {d});
    } else {
      assert c[1..] == [];
    }
  }

  /** The flags say which nodes are on the way. */
  ghost predicate Marked(nodes: set<Dict>, seen: set<Dict>)
    reads nodes`traversed
  {
    forall d <- nodes :: d.traversed <==> d in seen
  }

  /** The sizing pass: returns the length including the NUL, and leaves the flags. */
  method Figure(d: Dict, dir: string, len: nat, ghost pfs: nat, ghost nodes: set<Dict>, ghost seen: set<Dict>)
    returns (len': nat)
    requires d in nodes && d !in seen && Closed(nodes) && Marked(nodes, seen)
    modifies nodes`traversed
    ensures Closed(nodes) && Marked(nodes, seen)
    ensures len' == len + |Path(nodes, d, seen, dir, pfs)| + 1
    decreases nodes - seen
  {
    d.traversed := true;
    len' := len + (if d.objId == ROOT_OBJID then STRLEN_PFSID
                   else if d.name.Some? then |d.name.value|
                   else STRLEN_OBJID) + 1;
    var p := d.parent;
    if p != null && !p.traversed {
      len' := Figure(p, dir, len', pfs, nodes, seen + {d});
    } else {
      len' := len' + |dir| + 1;
    }
    d.traversed := false;
  }

  /** The buffer and the write cursor. */
  class Buffer {
    const buf: array<char>
    var next: nat

    ghost predicate Valid()
      reads this
    {
      next <= buf.Length
    }

    constructor (len: nat)
      ensures Valid() && next == 0 && fresh(buf) && buf.Length == len
    {
      buf := new char[len](_ => NUL);
      next := 0;
    }

    /** strcpy() and the move of the cursor to its NUL. */
    method Put(s: string)
      requires Valid() && next + |s| < buf.Length
      modifies this`next, buf
      ensures Valid() && next == old(next) + |s| && buf[..next] == old(buf[..next]) + s && buf[next] == NUL
    {
      forall i | 0 <= i < |s| {
        buf[next + i] := s[i];
      }
      buf[next + |s|] := NUL;
      assert buf[..next + |s|] == buf[..next] + buf[next..next + |s|];
      next := next + |s|;
    }

    method PutElement(s: string)
      requires Valid() && next + 1 + |s| < buf.Length
      modifies this`next, buf
      ensures Valid() && next == old(next) + 1 + |s| && buf[..next] == old(buf[..next]) + "/" + s && buf[next] == NUL
    {
      Put("/");
      Put(s);
    }
  }

  /** What comes before the element of a node with parent `p`. */
  ghost function Above(nodes: set<Dict>, p: Dict?, seen: set<Dict>, dir: string, pfs: nat): string
    requires Closed(nodes) && (p != null ==> p in nodes)
    reads nodes`parent, nodes`name
  {
    if p == null || p in seen then dir else Path(nodes, p, seen, dir, pfs)
  }

  /** The loading pass: fills the buffer with the path, within its bounds. */
  method Load(d: Dict, dir: string, pfs: nat, b: Buffer, ghost nodes: set<Dict>, ghost seen: set<Dict>)
    requires d in nodes && d !in seen && Closed(nodes) && Marked(nodes, seen) && b.Valid() && b.next == 0
    requires |Path(nodes, d, seen, dir, pfs)| < b.buf.Length
    modifies nodes`traversed, b`next, b.buf
    ensures Marked(nodes, seen) && b.Valid() && b.next < b.buf.Length
    ensures b.buf[..b.next] == Path(nodes, d, seen, dir, pfs) && b.buf[b.next] == NUL
    decreases nodes - seen, 1
  {
    var elem := Element(d, pfs);
    assert Path(nodes, d, seen, dir, pfs) == Above(nodes, d.parent, seen + {d}, dir, pfs) + "/" + elem;
    hide Path, Element, Closed, Above;
    d.traversed := true;
    LoadAbove(d, dir, pfs, b, nodes, seen + {d});
    b.PutElement(elem);
    d.traversed := false;
  }

  method LoadAbove(d: Dict, dir: string, pfs: nat, b: Buffer, ghost nodes: set<Dict>, ghost seen: set<Dict>)
    requires d in nodes && d in seen && Closed(nodes) && Marked(nodes, seen) && b.Valid() && b.next == 0
    requires |Above(nodes, d.parent, seen, dir, pfs)| < b.buf.Length
    modifies nodes`traversed, b`next, b.buf
    ensures Marked(nodes, seen) && b.Valid() && b.next < b.buf.Length
    ensures b.buf[..b.next] == Above(nodes, d.parent, seen, dir, pfs) && b.buf[b.next] == NUL
    decreases nodes - seen, 2
  {
    hide Path;
    if d.parent != null && !d.parent.traversed {
      Load(d.parent, dir, pfs, b, nodes, seen);
    } else {
      b.Put(dir);
    }
  }

  /** `recover_path`: for every parent graph it ends, with all flags restored and
      a buffer that the path fills to its last byte. */
  method Recover(d: Dict, dir: string, ghost nodes: set<Dict>) returns (b: Buffer)
    requires d in nodes && Closed(nodes) && Marked(nodes, {})
    modifies nodes`traversed
    ensures Closed(nodes) && Marked(nodes, {}) && fresh(b) && b.buf.Length == b.next + 1
    ensures b.buf[..b.next] == Text(Chain(nodes, d, {}), dir, d.pfsId) && b.buf[b.next] == NUL
  {
    var len := Figure(d, dir, 0, d.pfsId, nodes, {});
    b := new Buffer(len);
    Load(d, dir, d.pfsId, b, nodes, {});
    PathIsText(nodes, d, {}, dir, d.pfsId);
    assert |b.buf[..b.next]| == b.next;
  }
}
