/** The BER-TLV cursor: nodes read inside a window of a buffer, iteration, and the recursive search. */
module Tlv {
  import opened Bytes
  import opened Errors
  import opened Numbers

  const MAX_TAG_BYTES := 4
  const MAX_LENGTH_BYTES := 4
  const MAX_DEPTH := 16
  const SIZE_MAX := 0xFFFF_FFFF

  /** One data object: where it starts, where its value starts, and how long the value is. */
  datatype Node = Node(tag: nat, constructed: bool, start: nat, valueStart: nat, valueLen: nat) {
    function End(): nat { valueStart + valueLen }
  }

  // ---- Reading a header --------------------------------------------------------------------

  /** The further bytes of a tag, seven bits each, while the top bit says there are more. */
  function TagTail(data: Bytes, end: nat, pos: nat, tag: nat, bytes: nat): (r: Option<(nat, nat)>)
    requires end <= |data| && bytes <= MAX_TAG_BYTES
    ensures r.Some? ==> pos < r.value.1 <= end
    decreases MAX_TAG_BYTES - bytes
  {
    if pos >= end || bytes >= MAX_TAG_BYTES then None
    else
      var t := tag * 256 + data[pos];
      if data[pos] >= 0x80 then TagTail(data, end, pos + 1, t, bytes + 1) else Some((t, pos + 1))
  }

  /** The tag at `pos` and the position after it; 00 and FF begin no tag. */
  function ReadTag(data: Bytes, end: nat, pos: nat): (r: Option<(nat, nat)>)
    requires end <= |data|
    ensures r.Some? ==> pos < r.value.1 <= end
  {
    if pos >= end || data[pos] == 0x00 || data[pos] == 0xFF then None
    else if data[pos] % 0x20 == 0x1F then TagTail(data, end, pos + 1, data[pos], 1)
    else Some((data[pos], pos + 1))
  }

  /** The length at `pos` and the position after it; the indefinite form is refused. */
  function ReadLength(data: Bytes, end: nat, pos: nat): (r: Option<(nat, nat)>)
    requires end <= |data|
    ensures r.Some? ==> pos < r.value.1 <= end
  {
    if pos >= end then None
    else if data[pos] < 0x80 then Some((data[pos], pos + 1))
    else if data[pos] == 0x80 || data[pos] == 0xFF then None
    else
      var count := data[pos] - 0x80;
      if count > MAX_LENGTH_BYTES || count > end - (pos + 1) then None
      else Some((BeValue(data[pos + 1..pos + 1 + count]), pos + 1 + count))
  }

  /** The header at `offset`: tag, constructed bit, where the value starts, and its stated length. */
  function ReadHeader(data: Bytes, end: nat, offset: nat): (r: Option<Node>)
    requires end <= |data|
    ensures r.Some? ==> r.value.start == offset && offset + 2 <= r.value.valueStart <= end
  {
    match ReadTag(data, end, offset)
    case None => None
    case Some((tag, p)) =>
      match ReadLength(data, end, p)
      case None => None
      case Some((len, q)) => Some(Node(tag, data[offset] / 0x20 % 2 == 1, offset, q, len))
  }

  /** The node at `offset`, its value inside the window. */
  function ReadNode(data: Bytes, end: nat, offset: nat): (r: Option<Node>)
    requires end <= |data|
    ensures r.Some? ==> r.value.start == offset && offset + 2 <= r.value.valueStart && r.value.End() <= end
  {
    match ReadHeader(data, end, offset)
    case None => None
    case Some(n) => if n.valueLen > end - n.valueStart then None else Some(n)
  }

  method ReadTagAt(data: Bytes, end: nat, pos: nat) returns (r: Option<(nat, nat)>)
    requires end <= |data|
    ensures r == ReadTag(data, end, pos)
  {
    if pos >= end {
      return None;
    }
    var first := data[pos];
    if first == 0x00 || first == 0xFF {
      return None;
    }
    var tag: nat, bytes, p := first, 1, pos + 1;
    if first % 0x20 == 0x1F {
      var more := true;
      while more
        invariant 1 <= bytes <= MAX_TAG_BYTES && pos < p && (more || p <= end)
        invariant ReadTag(data, end, pos) == if more then TagTail(data, end, p, tag, bytes) else Some((tag, p))
        decreases more, MAX_TAG_BYTES - bytes
      {
        if p >= end || bytes >= MAX_TAG_BYTES {
          return None;
        }
        tag, bytes, p, more := tag * 256 + data[p], bytes + 1, p + 1, data[p] >= 0x80;
      }
    }
    return Some((tag, p));
  }

  method ReadLengthAt(data: Bytes, end: nat, pos: nat) returns (r: Option<(nat, nat)>)
    requires end <= |data|
    ensures r == ReadLength(data, end, pos)
  {
    if pos >= end {
      return None;
    }
    var first := data[pos];
    if first < 0x80 {
      return Some((first, pos + 1));
    }
    if first == 0x80 || first == 0xFF {
      return None;
    }
    var count := first - 0x80;
    if count > MAX_LENGTH_BYTES || count > end - (pos + 1) {
      return None;
    }
    var value, i := 0, 0;
    while i < count
      invariant 0 <= i <= count
      invariant value == BeValue(data[pos + 1..pos + 1 + i])
    {
      assert data[pos + 1..pos + 2 + i][..i] == data[pos + 1..pos + 1 + i];
      value := value * 256 + (data[pos + 1 + i] as int);
      i := i + 1;
    }
    return Some((value, pos + 1 + count));
  }

  // ---- Iteration ---------------------------------------------------------------------------

  /** What a cursor from `offset` on still returns, and whether it ends on the window's end. */
  function Walk(data: Bytes, end: nat, offset: nat): (r: (seq<Node>, bool))
    requires end <= |data|
    decreases end - offset
  {
    if offset >= end then ([], offset == end)
    else
      match ReadNode(data, end, offset)
      case None => ([], false)
      case Some(n) =>
        var (rest, exhausted) := Walk(data, end, n.End());
        ([n] + rest, exhausted)
  }

  /** The nodes lie end to end from `from` to `to`, each one what the bytes there spell. */
  ghost predicate Tile(data: Bytes, end: nat, nodes: seq<Node>, from: nat, to: nat)
    requires end <= |data|
  {
    if nodes == [] then from == to
    else
      && ReadNode(data, end, from) == Some(nodes[0])
      && Tile(data, end, nodes[1..], nodes[0].End(), to)
  }

  /** There is a way to read all of the window as nodes. */
  ghost predicate Tiled(data: Bytes, end: nat, offset: nat)
    requires end <= |data|
  {
    exists all :: Tile(data, end, all, offset, end)
  }

  /** Where the tiles end. */
  function TilesEnd(nodes: seq<Node>, from: nat): nat {
    if nodes == [] then from else nodes[|nodes| - 1].End()
  }

  lemma {:induction false} TileBounds(data: Bytes, end: nat, nodes: seq<Node>, from: nat, to: nat)
    requires end <= |data| && Tile(data, end, nodes, from, to)
    ensures to == TilesEnd(nodes, from) && (nodes != [] ==> from < to <= end)
    decreases |nodes|
  {
    if nodes != [] {
      TileBounds(data, end, nodes[1..], nodes[0].End(), to);
    }
  }

  lemma {:induction false} TilingIsWalked(data: Bytes, end: nat, all: seq<Node>, offset: nat)
    requires offset <= end <= |data| && Tile(data, end, all, offset, end)
    ensures Walk(data, end, offset) == (all, true)
    decreases |all|
  {
    TileBounds(data, end, all, offset, end);
    if all != [] {
      TilingIsWalked(data, end, all[1..], all[0].End());
      assert all == [all[0]] + all[1..];
    }
  }

  /**
   * The cursor is exact: the nodes it returns tile a prefix of the window, and it reports itself
   * exhausted exactly when there are nodes that tile all of it, which are then the ones returned.
   */
  lemma {:induction false} WalkExact(data: Bytes, end: nat, offset: nat)
    requires offset <= end <= |data|
    ensures
      var (nodes, exhausted) := Walk(data, end, offset);
      && Tile(data, end, nodes, offset, TilesEnd(nodes, offset))
      && TilesEnd(nodes, offset) <= end
      && (exhausted <==> Tiled(data, end, offset))
      && (exhausted ==> Tile(data, end, nodes, offset, end))
    decreases end - offset
  {
    var (nodes, exhausted) := Walk(data, end, offset);
    if offset == end {
      assert Tile(data, end, [], offset, end);
    } else {
      match ReadNode(data, end, offset)
      case None =>
      case Some(n) =>
        WalkExact(data, end, n.End());
        var (rest, done) := Walk(data, end, n.End());
        assert nodes[1..] == rest && exhausted == done;
        TileBounds(data, end, rest, n.End(), TilesEnd(rest, n.End()));
        assert TilesEnd(nodes, offset) == TilesEnd(rest, n.End());
        if done {
          assert Tile(data, end, nodes, offset, end);
        }
    }
    if Tiled(data, end, offset) {
      var all :| Tile(data, end, all, offset, end);
      TilingIsWalked(data, end, all, offset);
    }
  }

  /** The cursor as the program keeps it; a failed parse parks the offset out of reach. */
  class Iter {
    const data: Bytes
    const end: nat
    var offset: nat

    predicate Valid()
      reads this
    {
      end <= |data| && (offset <= end || offset == SIZE_MAX) && end < SIZE_MAX
    }

    constructor (data: Bytes, start: nat, end: nat)
      requires start <= end <= |data| && end < SIZE_MAX
      ensures Valid() && this.data == data && this.end == end && offset == start
    {
      this.data, this.end, offset := data, end, start;
    }

    predicate Exhausted()
      reads this
    {
      offset == end
    }

    method Next() returns (node: Option<Node>)
      requires Valid()
      modifies this
      ensures Valid()
      ensures old(offset) >= end ==> node == None && offset == old(offset)
      ensures old(offset) < end ==> node == ReadNode(data, end, old(offset))
      ensures old(offset) < end ==> offset == if node.Some? then node.value.End() else SIZE_MAX
      ensures old(Walk(data, end, offset)) ==
              match node case None => ([], Exhausted()) case Some(n) => ([n] + Walk(data, end, offset).0, Walk(data, end, offset).1)
    {
      if offset >= end {
        return None;
      }
      node := None;
      var tag := ReadTagAt(data, end, offset);
      if tag.Some? {
        var length := ReadLengthAt(data, end, tag.value.1);
        if length.Some? && length.value.0 <= end - length.value.1 {
          node := Some(Node(tag.value.0, data[offset] / 0x20 % 2 == 1, offset, length.value.1, length.value.0));
        }
      }
      offset := if node.Some? then node.value.End() else SIZE_MAX;
    }
  }

  // ---- Searching ---------------------------------------------------------------------------

  function FirstTag(nodes: seq<Node>, tag: nat): Option<Node> {
    if nodes == [] then None
    else if nodes[0].tag == tag then Some(nodes[0])
    else FirstTag(nodes[1..], tag)
  }

  predicate Descends(n: Node, depth: nat) {
    n.constructed && n.valueLen > 0 && depth + 1 < MAX_DEPTH
  }

  /** Depth first, a node before its children, no deeper than sixteen levels. */
  function Preorder(data: Bytes, end: nat, offset: nat, depth: nat): seq<Node>
    requires end <= |data|
    decreases end - offset
  {
    if offset >= end then []
    else
      match ReadNode(data, end, offset)
      case None => []
      case Some(n) =>
        [n]
        + (if Descends(n, depth)
           then Preorder(data, n.End(), n.valueStart, depth + 1) else [])
        + Preorder(data, end, n.End(), depth)
  }

  lemma {:induction false} FirstTagConcat(a: seq<Node>, b: seq<Node>, tag: nat)
    ensures FirstTag(a + b, tag) == if FirstTag(a, tag).Some? then FirstTag(a, tag) else FirstTag(b, tag)
    decreases |a|
  {
    if a == [] {
      assert a + b == b;
    } else {
      assert (a + b)[1..] == a[1..] + b;
      FirstTagConcat(a[1..], b, tag);
    }
  }

  lemma FirstTagSingle(n: Node, tag: nat)
    ensures FirstTag([n], tag) == if n.tag == tag then Some(n) else None
    ensures FirstTag([], tag) == None
  {
  }

  /** FirstTag finds the earliest match, and finds one whenever there is one. */
  lemma {:induction false} FirstTagIsFirst(nodes: seq<Node>, tag: nat)
    ensures FirstTag(nodes, tag).None? <==> forall i :: 0 <= i < |nodes| ==> nodes[i].tag != tag
    ensures FirstTag(nodes, tag).Some? ==>
      exists k :: 0 <= k < |nodes| && FirstTag(nodes, tag) == Some(nodes[k]) && nodes[k].tag == tag
                  && forall i :: 0 <= i < k ==> nodes[i].tag != tag
    decreases |nodes|
  {
    if nodes != [] && nodes[0].tag != tag {
      var rest := nodes[1..];
      FirstTagIsFirst(rest, tag);
      assert forall i :: 1 <= i < |nodes| ==> nodes[i] == rest[i - 1];
      if FirstTag(rest, tag).Some? {
        var k :| 0 <= k < |rest| && FirstTag(rest, tag) == Some(rest[k]) && rest[k].tag == tag
                 && forall i :: 0 <= i < k ==> rest[i].tag != tag;
        assert nodes[k + 1] == rest[k];
      }
    } else if nodes != [] {
      assert FirstTag(nodes, tag) == Some(nodes[0]);
    }
  }

  /** The first match among the window's own nodes. */
  method Find(data: Bytes, start: nat, end: nat, tag: nat) returns (found: Option<Node>)
    requires start <= end <= |data| && end < SIZE_MAX
    ensures found == FirstTag(Walk(data, end, start).0, tag)
  {
    var iter := new Iter(data, start, end);
    ghost var wanted := FirstTag(Walk(data, end, start).0, tag);
    while true
      invariant iter.Valid() && iter.data == data && iter.end == end
      invariant wanted == FirstTag(Walk(data, end, iter.offset).0, tag)
      decreases if iter.offset <= end then end - iter.offset + 1 else 0
    {
      var node := iter.Next();
      if node.None? {
        return None;
      }
      assert ([node.value] + Walk(data, end, iter.offset).0)[1..] == Walk(data, end, iter.offset).0;
      if node.value.tag == tag {
        return node;
      }
    }
  }

  /** The search takes the node itself, then what its children hold, then its siblings. */
  lemma PreorderStep(data: Bytes, end: nat, offset: nat, depth: nat, tag: nat)
    requires offset < end <= |data| && ReadNode(data, end, offset).Some?
    ensures
      var n := ReadNode(data, end, offset).value;
      var inner := if Descends(n, depth) then FirstTag(Preorder(data, n.End(), n.valueStart, depth + 1), tag) else None;
      FirstTag(Preorder(data, end, offset, depth), tag)
        == if n.tag == tag then Some(n) else if inner.Some? then inner
           else FirstTag(Preorder(data, end, n.End(), depth), tag)
  {
    hide ReadNode;
    var n := ReadNode(data, end, offset).value;
    var children := if Descends(n, depth) then Preorder(data, n.End(), n.valueStart, depth + 1) else [];
    FirstTagConcat([n] + children, Preorder(data, end, n.End(), depth), tag);
    FirstTagConcat([n], children, tag);
    FirstTagSingle(n, tag);
  }

  lemma PreorderEnds(data: Bytes, end: nat, offset: nat, depth: nat, tag: nat)
    requires end <= |data| && (offset >= end || ReadNode(data, end, offset).None?)
    ensures FirstTag(Preorder(data, end, offset, depth), tag) == None
  {
  }

  /** The first match of the depth first walk, as the recursive search returns it. */
  method FindRecursive(data: Bytes, start: nat, end: nat, tag: nat, depth: nat) returns (found: Option<Node>)
    requires start <= end <= |data| && end < SIZE_MAX && depth < MAX_DEPTH
    ensures found == FirstTag(Preorder(data, end, start, depth), tag)
    decreases MAX_DEPTH - depth
  {
    hide Preorder, FirstTag, Walk, ReadNode;
    var iter := new Iter(data, start, end);
    ghost var wanted := FirstTag(Preorder(data, end, start, depth), tag);
    while true
      invariant iter.Valid() && iter.data == data && iter.end == end
      invariant wanted == FirstTag(Preorder(data, end, iter.offset, depth), tag)
      decreases if iter.offset <= end then end - iter.offset + 1 else 0
    {
      ghost var at := iter.offset;
      var node := iter.Next();
      if node.None? {
        PreorderEnds(data, end, at, depth, tag);
        return None;
      }
      PreorderStep(data, end, at, depth, tag);
      var n := node.value;
      if n.tag == tag {
        return node;
      }
      if Descends(n, depth) {
        var inner := FindRecursive(data, n.valueStart, n.End(), tag, depth + 1);
        if inner.Some? {
          return inner;
        }
      }
    }
  }

  // ---- Sizing a file from its first bytes --------------------------------------------------

  /** How long the whole object is that begins here, from its header alone; zero when that fails. */
  function TotalLength(header: Bytes): nat {
    match ReadHeader(header, |header|, 0)
    case None => 0
    case Some(n) => if n.valueLen > SIZE_MAX - n.valueStart then 0 else n.End()
  }

  lemma {:induction false} TagTailSlice(data: Bytes, end: nat, pos: nat, tag: nat, bytes: nat)
    requires end <= |data| && bytes <= MAX_TAG_BYTES
    ensures TagTail(data[..end], end, pos, tag, bytes) == TagTail(data, end, pos, tag, bytes)
    decreases MAX_TAG_BYTES - bytes
  {
    if pos < end && bytes < MAX_TAG_BYTES {
      TagTailSlice(data, end, pos + 1, tag * 256 + data[pos], bytes + 1);
    }
  }

  lemma {:induction false} TagTailGrows(data: Bytes, end: nat, more: nat, pos: nat, tag: nat, bytes: nat)
    requires end <= more <= |data| && bytes <= MAX_TAG_BYTES
    ensures
      var r := TagTail(data, end, pos, tag, bytes);
      var s := TagTail(data, more, pos, tag, bytes);
      (r.Some? ==> s == r) && (s.Some? && s.value.1 <= end ==> r == s)
    decreases MAX_TAG_BYTES - bytes
  {
    if pos < end && bytes < MAX_TAG_BYTES {
      TagTailGrows(data, end, more, pos + 1, tag * 256 + data[pos], bytes + 1);
    }
  }

  lemma ReadTagSlice(data: Bytes, end: nat, pos: nat)
    requires end <= |data|
    ensures ReadTag(data[..end], end, pos) == ReadTag(data, end, pos)
  {
    hide TagTail;
    if pos < end {
      TagTailSlice(data, end, pos + 1, data[pos], 1);
    }
  }

  lemma ReadLengthSlice(data: Bytes, end: nat, pos: nat)
    requires end <= |data|
    ensures ReadLength(data[..end], end, pos) == ReadLength(data, end, pos)
  {
    hide BeValue;
    if pos < end && data[pos] > 0x80 && data[pos] - 0x80 <= 4 && data[pos] - 0x80 <= end - (pos + 1) {
      assert data[..end][pos + 1..pos + 1 + data[pos] - 0x80] == data[pos + 1..pos + 1 + data[pos] - 0x80];
    }
  }

  /** Only the bytes of the window matter. */
  lemma ReadNodeSlice(data: Bytes, end: nat, offset: nat)
    requires end <= |data|
    ensures ReadNode(data[..end], end, offset) == ReadNode(data, end, offset)
  {
    hide ReadTag, ReadLength;
    ReadTagSlice(data, end, offset);
    if ReadTag(data, end, offset).Some? {
      ReadLengthSlice(data, end, ReadTag(data, end, offset).value.1);
    }
  }

  /** A header is read the same however much follows it, and cannot be read before it is all there. */
  lemma HeaderPrefix(data: Bytes, k: nat)
    requires k <= |data|
    ensures
      var whole := ReadHeader(data, |data|, 0);
      && ReadHeader(data[..k], k, 0) == (if whole.Some? && whole.value.valueStart <= k then whole else None)
  {
    hide TagTail, BeValue;
    ReadTagSlice(data, k, 0);
    if k > 0 {
      TagTailGrows(data, k, |data|, 1, data[0], 1);
      var tag := ReadTag(data, |data|, 0);
      if tag.Some? {
        ReadLengthSlice(data, k, tag.value.1);
      }
    }
  }

  /**
   * A file that is one node is sized correctly from any prefix that holds its header, and from no
   * shorter one.
   */
  lemma TotalLengthOfPrefix(file: Bytes, k: nat)
    requires k <= |file| <= SIZE_MAX
    requires ReadNode(file, |file|, 0).Some? && ReadNode(file, |file|, 0).value.End() == |file|
    ensures TotalLength(file[..k]) == if ReadNode(file, |file|, 0).value.valueStart <= k then |file| else 0
  {
    HeaderPrefix(file, k);
  }

  // ---- Writing -----------------------------------------------------------------------------

  function EncodedLengthSize(length: nat): nat {
    if length < 0x80 then 1
    else if length <= 0xFF then 2
    else if length <= 0xFFFF then 3
    else if length <= 0xFFFFFF then 4
    else 0
  }

  function EncodeLength(length: nat): (out: Bytes)
    ensures |out| == EncodedLengthSize(length)
  {
    if length < 0x80 then [length]
    else if length <= 0xFF then [0x81, length]
    else if length <= 0xFFFF then [0x82, length / 256, length % 256]
    else if length <= 0xFFFFFF then [0x83, length / 65536, length / 256 % 256, length % 256]
    else []
  }

  /** A data object with a one byte tag. */
  function Object(tag: byte, value: Bytes): Bytes {
    [tag] + EncodeLength(|value|) + value
  }

  /** Every length that can be written is read back, and the position after it is the right one. */
  lemma LengthRoundTrip(before: Bytes, length: nat, after: Bytes)
    requires length <= 0xFFFFFF
    ensures
      var data := before + EncodeLength(length) + after;
      ReadLength(data, |data|, |before|) == Some((length, |before| + EncodedLengthSize(length)))
  {
    var enc := EncodeLength(length);
    var data := before + enc + after;
    var p := |before|;
    assert forall i :: 0 <= i < |enc| ==> data[p + i] == enc[i];
    assert data[p] == enc[0];
    if length > 0x7F {
      var value := data[p + 1..p + |enc|];
      assert value == enc[1..];
      BeValueShort(value);
    }
  }

  /** An object written with a one byte tag is the node read back at that place. */
  lemma ObjectRoundTrip(before: Bytes, tag: byte, value: Bytes, after: Bytes)
    requires tag != 0x00 && tag != 0xFF && tag % 0x20 != 0x1F && |value| <= 0xFFFFFF
    ensures
      var data := before + Object(tag, value) + after;
      var n := ReadNode(data, |data|, |before|);
      && n == Some(Node(tag, tag / 0x20 % 2 == 1, |before|, |before| + 1 + EncodedLengthSize(|value|), |value|))
      && n.value.End() == |before| + |Object(tag, value)|
      && data[n.value.valueStart..n.value.End()] == value
  {
    var data := before + Object(tag, value) + after;
    assert data == (before + [tag]) + EncodeLength(|value|) + (value + after);
    LengthRoundTrip(before + [tag], |value|, value + after);
    assert data[|before|] == tag;
    var s := |before| + 1 + EncodedLengthSize(|value|);
    assert data[s..s + |value|] == value;
  }

  /** A tag as section 8.1.2 of ITU-T X.690 has it: one byte, or up to four when the first has its five low bits set. */
  predicate IsTag(t: Bytes) {
    && 1 <= |t| <= 4 && t[0] != 0x00 && t[0] != 0xFF
    && if |t| == 1 then t[0] % 32 != 31
       else t[0] % 32 == 31 && t[|t| - 1] < 128 && forall i :: 1 <= i < |t| - 1 ==> t[i] >= 128
  }

  lemma {:induction false} TailRead(data: Bytes, pos: nat, t: Bytes, k: nat)
    requires IsTag(t) && 1 <= k < |t| && pos + |t| <= |data| && data[pos..pos + |t|] == t
    ensures TagTail(data, |data|, pos + k, BeValue(t[..k]), k) == Some((BeValue(t), pos + |t|))
    decreases |t| - k
  {
    assert t[..k + 1][..k] == t[..k];
    assert data[pos + k] == t[k];
    if k + 1 < |t| {
      TailRead(data, pos, t, k + 1);
    } else {
      assert t[..k + 1] == t;
    }
  }

  /** Every such tag is read as the number its bytes spell. */
  lemma TagRoundTrip(before: Bytes, t: Bytes, after: Bytes)
    requires IsTag(t)
    ensures
      var data := before + t + after;
      ReadTag(data, |data|, |before|) == Some((BeValue(t), |before| + |t|))
  {
    hide BeValue;
    var data, p := before + t + after, |before|;
    assert data[p..p + |t|] == t && data[p] == t[0];
    BeValueShort(t[..1]);
    assert |t| == 1 ==> t[..1] == t;
    if |t| > 1 {
      TailRead(data, p, t, 1);
    }
  }

  lemma OneMoreByte(data: Bytes, a: nat, b: nat)
    requires a <= b < |data|
    ensures BeValue(data[a..b + 1]) == BeValue(data[a..b]) * 256 + data[b]
  {
    var t := data[a..b + 1];
    assert t[..b - a] == data[a..b] && t[b - a] == data[b];
  }

  lemma {:induction false} TailSpells(data: Bytes, end: nat, pos: nat, k: nat)
    requires end <= |data| && 1 <= k <= 4 && pos + k <= end
    ensures
      var r := TagTail(data, end, pos + k, BeValue(data[pos..pos + k]), k);
      r.Some? ==>
        var p := r.value.1;
        && k < p - pos <= 4 && p <= end && r.value.0 == BeValue(data[pos..p]) && data[p - 1] < 128
        && forall i :: pos + k <= i < p - 1 ==> data[i] >= 128
    decreases 4 - k
  {
    hide BeValue;
    if k < 4 && pos + k < end {
      OneMoreByte(data, pos, pos + k);
      if data[pos + k] >= 0x80 {
        TailSpells(data, end, pos, k + 1);
      }
    }
  }

  /** And nothing else is: what is read as a tag is one, byte for byte. */
  lemma TagExact(data: Bytes, end: nat, pos: nat)
    requires end <= |data| && ReadTag(data, end, pos).Some?
    ensures
      var (tag, p) := ReadTag(data, end, pos).value;
      pos < p <= end && IsTag(data[pos..p]) && tag == BeValue(data[pos..p])
  {
    hide BeValue, TagTail;
    var first := data[pos..pos + 1];
    BeValueShort(first);
    assert first[0] == data[pos];
    TailSpells(data, end, pos, 1);
    var (tag, p) := ReadTag(data, end, pos).value;
    var t := data[pos..p];
    assert t[0] == data[pos] && t[|t| - 1] == data[p - 1];
    if |t| == 1 {
      assert t == first;
    }
    assert forall i | 1 <= i < |t| - 1 :: t[i] == data[pos + i];
  }

  /** A length is one byte below 128, or one to four bytes behind 81 to 84; 80 and everything above 84 is refused. */
  lemma LengthExact(data: Bytes, end: nat, pos: nat)
    requires end <= |data|
    ensures pos >= end ==> ReadLength(data, end, pos) == None
    ensures pos < end && data[pos] <= 127 ==> ReadLength(data, end, pos) == Some((data[pos], pos + 1))
    ensures pos < end && data[pos] in {129, 130, 131, 132} && pos + data[pos] - 128 < end ==>
      ReadLength(data, end, pos) == Some((BeValue(data[pos + 1..pos + data[pos] - 127]), pos + data[pos] - 127))
    ensures pos < end && data[pos] in {129, 130, 131, 132} && pos + data[pos] - 128 >= end ==>
      ReadLength(data, end, pos) == None
    ensures pos < end && (data[pos] == 128 || data[pos] >= 133) ==> ReadLength(data, end, pos) == None
  {
    hide BeValue;
  }

  /** Four bytes of length are read, and no more than four. */
  lemma LongestLength(before: Bytes, length: Bytes, after: Bytes)
    requires 1 <= |length| <= 126
    ensures
      var data := before + [0x80 + |length|] + length + after;
      ReadLength(data, |data|, |before|)
      == if |length| <= 4 then Some((BeValue(length), |before| + 1 + |length|)) else None
  {
    hide BeValue;
    var data, p := before + [0x80 + |length|] + length + after, |before|;
    assert data[p] == 0x80 + |length| && data[p + 1..p + 1 + |length|] == length;
  }

  /** The search looks inside constructed nodes that hold anything, down to the sixteenth level. */
  lemma DescentInNumbers(n: Node, depth: nat)
    ensures Descends(n, depth) <==> n.constructed && n.valueLen > 0 && depth < 15
  {
  }

  // ---- Integers ----------------------------------------------------------------------------

  function SkipZeros(value: Bytes): (r: Bytes)
    ensures |r| <= |value| && (r != [] ==> r[0] != 0)
  {
    if value != [] && value[0] == 0 then SkipZeros(value[1..]) else value
  }

  /** An unsigned integer of up to four bytes, behind any number of leading zeros. */
  function ReadUint(value: Bytes): Option<nat> {
    if value == [] || |SkipZeros(value)| > 4 then None else Some(BeValue(SkipZeros(value)))
  }

  lemma {:induction false} SkippedValue(value: Bytes)
    ensures BeValue(SkipZeros(value)) == BeValue(value)
    decreases |value|
  {
    if value != [] && value[0] == 0 {
      BeValueFront(0, value[1..]);
      assert value == [0] + value[1..];
      SkippedValue(value[1..]);
    }
  }

  lemma {:induction false} Pow256Grows(n: nat, m: nat)
    requires n <= m
    ensures Pow256(n) <= Pow256(m)
    decreases m - n
  {
    if n < m {
      Pow256Grows(n, m - 1);
    }
  }

  lemma Pow256Of4()
    ensures Pow256(4) == 0x1_0000_0000
  {
    assert Pow256(1) == 256 && Pow256(2) == 65536 && Pow256(3) == 0x100_0000;
  }

  /** It is read exactly when it fits 32 bits, however many zeros DER put in front of it. */
  lemma ReadUintExact(value: Bytes, n: nat)
    ensures ReadUint(value) == Some(n) <==> value != [] && BeValue(value) == n && n < 0x1_0000_0000
  {
    hide BeValue, Pow256;
    SkippedValue(value);
    var s := SkipZeros(value);
    BeValueBound(s);
    Pow256Of4();
    if |s| > 4 {
      assert s == [s[0]] + s[1..];
      BeValueFront(s[0], s[1..]);
      Pow256Grows(4, |s| - 1);
      assert s[0] as int * Pow256(|s| - 1) >= Pow256(|s| - 1);
    } else {
      Pow256Grows(|s|, 4);
    }
  }

  lemma {:induction false} SkipZerosFrom(value: Bytes, k: nat)
    requires k <= |value| && forall i :: 0 <= i < k ==> value[i] == 0
    ensures SkipZeros(value[k..]) == SkipZeros(value)
    decreases k
  {
    if k > 0 {
      SkipZerosFrom(value, k - 1);
      assert value[k - 1..][1..] == value[k..];
    } else {
      assert value[0..] == value;
    }
  }

  /** The accumulator is 32 bits wide; what is shifted into it never wraps. */
  method ReadUintAt(value: Bytes) returns (r: Option<nat>)
    ensures r == ReadUint(value)
  {
    if value == [] {
      return None;
    }
    var offset := 0;
    while offset < |value| && value[offset] == 0
      invariant 0 <= offset <= |value| && forall i :: 0 <= i < offset ==> value[i] == 0
    {
      offset := offset + 1;
    }
    SkipZerosFrom(value, offset);
    ghost var s := value[offset..];
    assert SkipZeros(s) == s;
    if |value| - offset > 4 {
      return None;
    }
    var n, i := 0, offset;
    assert s[..0] == [];
    Pow256Of4();
    while i < |value|
      invariant offset <= i <= |value| && n == BeValue(s[..i - offset])
    {
      var t := s[..i + 1 - offset];
      assert t[..|t| - 1] == s[..i - offset] && t[|t| - 1] == value[i];
      BeValueBound(t);
      Pow256Grows(|t|, 4);
      n := (n * 256 + value[i] as int) % 0x1_0000_0000;
      i := i + 1;
    }
    assert s[..i - offset] == s;
    return Some(n);
  }
}
