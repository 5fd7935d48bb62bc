/**
 The block arenas behind source locations. Values are carved out of shared blocks, so
 what matters is that no two of them overlap and that nothing written later reaches an
 earlier one, the parser's reusable path buffer included.
 */
module LocationArena {

  /** len elements of block from lo on. */
  datatype Slice<T(!new)> = Slice(block: array<T>, lo: nat, len: nat)

  predicate InBounds<T(!new)>(s: Slice<T>) {
    s.lo + s.len <= s.block.Length
  }

  predicate Disjoint<T(!new)>(s: Slice<T>, t: Slice<T>) {
    s.block != t.block || s.lo + s.len <= t.lo || t.lo + t.len <= s.lo
  }

  function Content<T(!new)>(s: Slice<T>): seq<T>
    requires InBounds(s)
    reads s.block
  {
    s.block[s.lo..s.lo + s.len]
  }

  /** The size of the next block when n elements are wanted. */
  function BlockSize(next: nat, low: nat, high: nat, n: nat): (size: nat)
    requires low <= high
    ensures size >= n && size >= low && (size <= high || size == n)
    ensures low <= next <= high && n <= next ==> size == next
    ensures next < low && n <= low ==> size == low
    ensures next > high && n <= high ==> size == high
  {
    var size := if next < low then low else if next > high then high else next;
    if n > size then n else size
  }

  /** One arena; handed lists every slice it has given out. */
  class Arena<T(0, !new)> {
    const blockMin: nat
    const blockMax: nat
    var cur: array<T>
    var idx: nat
    var next: nat
    var seeded: bool
    ghost var handed: seq<Slice<T>>
    ghost var blocks: set<array<T>>

    constructor (blockMin: nat, blockMax: nat, seed: nat)
      requires blockMin <= blockMax
      ensures Valid() && fresh(blocks) && handed == []
      ensures this.blockMin == blockMin && this.blockMax == blockMax
    {
      this.blockMin, this.blockMax := blockMin, blockMax;
      var empty := new T[0];
      cur, idx, next, seeded := empty, 0, seed, false;
      handed, blocks := [], {empty};
    }

    ghost predicate Valid()
      reads this
    {
      && blockMin <= blockMax && idx <= cur.Length && cur in blocks
      && (forall s <- handed :: s.block in blocks && InBounds(s) && (s.block == cur ==> s.lo + s.len <= idx))
      && forall i, j :: 0 <= i < j < |handed| ==> Disjoint(handed[i], handed[j])
    }

    /** A slice of n elements that overlaps none handed out before; no element is written. */
    method Get(n: nat) returns (s: Slice<T>)
      requires Valid()
      modifies this
      ensures Valid() && handed == old(handed) + [s] && s.len == n
      ensures InBounds(s) && forall t <- old(handed) :: Disjoint(t, s)
      ensures old(blocks) <= blocks && fresh(blocks - old(blocks)) && s.block in blocks
    {
      if idx + n > cur.Length {
        var size := BlockSize(next, blockMin, blockMax, n);
        cur := new T[size];
        blocks := blocks + {cur};
        if seeded {
          next := size * 2;
        } else {
          seeded := true;
          next := blockMin;
        }
        idx := 0;
      }
      s := Slice(cur, idx, n);
      idx := idx + n;
      handed := handed + [s];
    }

    /** A copy of source; every slice handed out before keeps its content. */
    method CopyOf(source: seq<T>) returns (s: Slice<T>)
      requires Valid()
      modifies this, blocks
      ensures Valid() && handed == old(handed) + [s] && s.len == |source|
      ensures InBounds(s) && Content(s) == source && forall t <- old(handed) :: Disjoint(t, s)
      ensures forall t <- old(handed) :: Content(t) == old(Content(t))
      ensures old(blocks) <= blocks && fresh(blocks - old(blocks)) && s.block in blocks
    {
      s := Get(|source|);
      Fill(s, source);
    }
  }

  /** Writes the elements of s and no others of its block. */
  method Fill<T(!new)>(s: Slice<T>, values: seq<T>)
    requires InBounds(s) && s.len == |values|
    modifies s.block
    ensures Content(s) == values
    ensures forall k :: 0 <= k < s.block.Length && !(s.lo <= k < s.lo + s.len) ==> s.block[k] == old(s.block[k])
  {
    for i := 0 to |values|
      invariant forall k :: 0 <= k < i ==> s.block[s.lo + k] == values[k]
      invariant forall k :: 0 <= k < s.block.Length && !(s.lo <= k < s.lo + i) ==> s.block[k] == old(s.block[k])
    {
      s.block[s.lo + i] := values[i];
    }
  }

  // ---------------------------------------------------------------------------

  /** A recorded source location: its path and its span. */
  datatype Location = Location(path: Slice<int>, span: Slice<int>)

  class LocationTable {
    const arena: Arena<int>
    var pathBuf: array<int>
    var pathLen: nat
    var locations: seq<Location>

    constructor (seed: nat)
      ensures Valid() && locations == [] && fresh(arena) && fresh(arena.blocks) && fresh(pathBuf)
    {
      arena := new Arena(256, 0x8_0000, seed);
      pathBuf := new int[0];
      pathLen, locations := 0, [];
    }

    /** Paths and spans are slices of the arena, and the path buffer is none of its blocks. */
    ghost predicate Valid()
      reads this, arena
    {
      && arena.Valid() && pathBuf !in arena.blocks && pathLen <= pathBuf.Length
      && forall l <- locations :: l.path in arena.handed && l.span in arena.handed
    }

    /** What the stored locations say. */
    ghost function Stored(): seq<(seq<int>, seq<int>)>
      requires Valid()
      reads this, arena, arena.blocks
    {
      seq(|locations|, i requires 0 <= i < |locations| && Valid() reads this, arena, arena.blocks =>
        LocationContent(locations[i]))
    }

    ghost function LocationContent(l: Location): (seq<int>, seq<int>)
      requires Valid() && l in locations
      reads this, arena, arena.blocks
    {
      (Content(l.path), Content(l.span))
    }

    /** path + elems in the scratch buffer, which is replaced when it is too short. */
    method SpanPath(path: seq<int>, elems: seq<int>)
      requires Valid()
      modifies this`pathBuf, this`pathLen, pathBuf
      ensures Valid() && pathBuf[..pathLen] == path + elems
      ensures Stored() == old(Stored())
      ensures pathBuf == old(pathBuf) || fresh(pathBuf)
    {
      var all := path + elems;
      if |all| > pathBuf.Length {
        pathBuf := new int[2 * |all|];
      }
      for i := 0 to |all|
        modifies pathBuf
        invariant pathBuf !in arena.blocks && Valid()
        invariant pathBuf[..i] == all[..i]
      {
        pathBuf[i] := all[i];
      }
      pathLen := |all|;
    }

    /** Records a location; path may well be the scratch buffer, and is copied. */
    method AddLocationSpan(path: Slice<int>, startLine: int, startCol: int, endLine: int, endCol: int)
      requires Valid() && InBounds(path)
      modifies this`locations, arena, arena.blocks
      ensures Valid() && pathBuf[..pathLen] == old(pathBuf[..pathLen])
      ensures Stored() == old(Stored()) + [(
                old(Content(path)),
                if startLine == endLine then [startLine, startCol, endCol] else [startLine, startCol, endLine, endCol])]
    {
      var copy := arena.CopyOf(Content(path));
      var span := MultiSpan(startLine, startCol, endLine, endCol);
      locations := locations + [Location(copy, span)];
    }

    /** Three numbers for a span on one line, four otherwise. */
    function Span(startLine: int, startCol: int, endLine: int, endCol: int): seq<int> {
      if startLine == endLine then [startLine, startCol, endCol] else [startLine, startCol, endLine, endCol]
    }

    method MultiSpan(startLine: int, startCol: int, endLine: int, endCol: int) returns (s: Slice<int>)
      requires arena.Valid()
      modifies arena, arena.blocks
      ensures arena.Valid() && arena.handed == old(arena.handed) + [s]
      ensures InBounds(s)
      ensures Content(s) ==
        if startLine == endLine then [startLine, startCol, endCol] else [startLine, startCol, endLine, endCol]
      ensures forall t <- old(arena.handed) :: Disjoint(t, s) && Content(t) == old(Content(t))
      ensures old(arena.blocks) <= arena.blocks && fresh(arena.blocks - old(arena.blocks)) && s.block in arena.blocks
    {
      if startLine == endLine {
        s := arena.Get(3);
      } else {
        s := arena.Get(4);
      }
      Fill(s, Span(startLine, startCol, endLine, endCol));
    }
  }
}
