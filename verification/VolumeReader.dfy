/** The guest's reads through an open volume: `read_inode`, `read_stream` over the direct runs,
    and the path `walk` a user's request makes. */
module VolumeReader {
  import opened Bytes
  import opened Keys
  import opened DirectoryReader
  import opened Inode
  import opened Mount

  /** `read_inode`: the block, if it holds a live inode. */
  function ReadInode(vol: seq<byte>, m: Mounted, block: nat): (r: Option<seq<byte>>)
    ensures r.Some? ==> |r.value| == BLOCK
  {
    if block >= m.numBlocks || (block + 1) * BLOCK > |vol| then None
    else
      var b := vol[block * BLOCK..(block + 1) * BLOCK];
      if InodeInUse(b) then Some(b) else None
  }

  function DirectRun(inode: seq<byte>, i: nat): Run
    requires |inode| == BLOCK && i < DIRECT_RUNS
  {
    LeRun(inode, DATA + 8 * i)
  }

  predicate RunInVolume(vol: seq<byte>, run: Run, shift: nat)
  {
    (ToBlock(run, shift) + run.length) * BLOCK <= |vol|
  }

  function RunData(vol: seq<byte>, run: Run, shift: nat): (s: seq<byte>)
    requires RunInVolume(vol, run, shift)
    ensures |s| == run.length * BLOCK
  {
    vol[ToBlock(run, shift) * BLOCK..(ToBlock(run, shift) + run.length) * BLOCK]
  }

  /** The bytes the direct runs hold from run `i` on; the first zero run ends them. */
  function Direct(vol: seq<byte>, inode: seq<byte>, i: nat, shift: nat): Option<seq<byte>>
    requires |inode| == BLOCK && i <= DIRECT_RUNS
    decreases DIRECT_RUNS - i
  {
    if i == DIRECT_RUNS || RunIsZero(DirectRun(inode, i)) then Some([])
    else if !RunInVolume(vol, DirectRun(inode, i), shift) then None
    else
      match Direct(vol, inode, i + 1, shift)
      case None => None
      case Some(rest) => Some(RunData(vol, DirectRun(inode, i), shift) + rest)
  }

  predicate NoIndirect(inode: seq<byte>)
    requires |inode| == BLOCK
  {
    RunIsZero(LeRun(inode, DATA + 104)) && RunIsZero(LeRun(inode, DATA + 120))
  }

  /** An inode's stored bytes, for inodes without indirect runs: all the builder writes. */
  function Stream(vol: seq<byte>, inode: seq<byte>, shift: nat): Option<seq<byte>>
    requires |inode| == BLOCK
  {
    if NoIndirect(inode) then Direct(vol, inode, 0, shift) else None
  }

  /** The part of the request that a run at stream position `pos` covers is copied over the
      zeros the buffer starts with. */
  method CopyRun(vol: seq<byte>, run: Run, shift: nat, pos: nat, offset: nat, out: array<byte>)
    requires RunInVolume(vol, run, shift)
    modifies out
    ensures forall k | 0 <= k < out.Length ::
              out[k] == if pos <= offset + k < pos + run.length * BLOCK
                        then RunData(vol, run, shift)[offset + k - pos] else old(out[k])
  {
    var span, end := run.length * BLOCK, offset + out.Length;
    var lo := if offset > pos then offset else pos;
    var hi := if end < pos + span then end else pos + span;
    if lo >= hi {
      return;
    }
    var data := RunData(vol, run, shift);
    for at := lo to hi
      invariant forall k | 0 <= k < out.Length ::
          out[k] == if lo <= offset + k < at then data[offset + k - pos] else old(out[k])
    {
      out[at - offset] := data[at - pos];
    }
  }

  lemma DirectSplit(vol: seq<byte>, inode: seq<byte>, i: nat, shift: nat)
    requires |inode| == BLOCK && i < DIRECT_RUNS && Direct(vol, inode, i, shift).Some?
    requires !RunIsZero(DirectRun(inode, i))
    ensures RunInVolume(vol, DirectRun(inode, i), shift) && Direct(vol, inode, i + 1, shift).Some?
    ensures Direct(vol, inode, i, shift).value ==
            RunData(vol, DirectRun(inode, i), shift) + Direct(vol, inode, i + 1, shift).value
  {
  }

  lemma DirectEnd(vol: seq<byte>, inode: seq<byte>, i: nat, shift: nat)
    requires |inode| == BLOCK && i <= DIRECT_RUNS && (i == DIRECT_RUNS || RunIsZero(DirectRun(inode, i)))
    ensures Direct(vol, inode, i, shift) == Some([])
  {
  }

  /** `read_stream` over the direct runs: the stored bytes, and zeros past them. */
  method ReadStream(vol: seq<byte>, inode: seq<byte>, shift: nat, offset: nat, length: nat) returns (s: seq<byte>)
    requires |inode| == BLOCK && Stream(vol, inode, shift).Some?
    ensures s == Read(Stream(vol, inode, shift).value, offset, length)
  {
    hide Direct, RunData, RunInVolume;
    ghost var stream := Stream(vol, inode, shift).value;
    var out := new byte[length](_ => 0);
    var pos, i := 0, 0;
    while i < DIRECT_RUNS && !RunIsZero(DirectRun(inode, i))
      invariant 0 <= i <= DIRECT_RUNS && 0 <= pos <= |stream|
      invariant Direct(vol, inode, i, shift) == Some(stream[pos..])
      invariant forall k | 0 <= k < length :: out[k] == if offset + k < pos then stream[offset + k] else 0
      decreases DIRECT_RUNS - i
    {
      var run := DirectRun(inode, i);
      DirectSplit(vol, inode, i, shift);
      ghost var data, rest := RunData(vol, run, shift), Direct(vol, inode, i + 1, shift).value;
      assert stream[pos..] == data + rest;
      assert forall k | 0 <= k < |data| :: data[k] == stream[pos..][k];
      CopyRun(vol, run, shift, pos, offset, out);
      assert stream[pos + |data|..] == stream[pos..][|data|..] == rest;
      pos := pos + run.length * BLOCK;
      i := i + 1;
    }
    DirectEnd(vol, inode, i, shift);
    s := out[..];
  }

  // ----- walking a path

  function Mode(inode: seq<byte>): nat
    requires |inode| == BLOCK
  {
    Field(inode, 20, 4)
  }

  predicate IsDirectory(mode: nat) { mode / 0x1000 % 16 == 4 }

  /** Whether a user may search through an inode: the owner and group triads' execute bits
      for its owner, the others' for everyone else. */
  predicate MaySearch(mode: nat, isOwner: bool)
  {
    if isOwner then mode / 0x40 % 2 == 1 || mode / 8 % 2 == 1 else mode % 2 == 1
  }

  /** By the three digits of a mode, whose last bits are the right to search. */
  lemma SearchBits(rest: nat, owner: nat, group: nat, others: nat)
    requires owner < 8 && group < 8 && others < 8
    ensures var mode := 512 * rest + 64 * owner + 8 * group + others;
            && (MaySearch(mode, true) <==> owner % 2 == 1 || group % 2 == 1) && (MaySearch(mode, false) <==> others % 2 == 1)
  {
    var mode := 512 * rest + 64 * owner + 8 * group + others;
    DivUnique(mode, 8, 64 * rest + 8 * owner + group, others);
    DivUnique(mode, 64, 8 * rest + owner, 8 * group + others);
    LastBit(256 * rest + 32 * owner + 4 * group, others);
    LastBit(32 * rest + 4 * owner, group);
    LastBit(4 * rest, owner);
  }

  lemma LastBit(k: nat, bit: nat)
    ensures (2 * k + bit) % 2 == bit % 2
  {
  }

  function Size(inode: seq<byte>): nat
    requires |inode| == BLOCK
  {
    Field(inode, DATA + 136, 8)
  }

  function Parent(inode: seq<byte>, shift: nat): nat
    requires |inode| == BLOCK
  {
    ToBlock(LeRun(inode, 44), shift)
  }

  /** What a path names: nothing, a file with its bytes, or a directory. */
  datatype Found = NotFound | FoundFile(content: seq<byte>) | FoundDir

  function Describe(vol: seq<byte>, m: Mounted, inode: seq<byte>): Found
    requires |inode| == BLOCK
  {
    if IsDirectory(Mode(inode)) then FoundDir
    else
      match Stream(vol, inode, m.shift)
      case None => NotFound
      case Some(stream) => FoundFile(Read(stream, 0, Size(inode)))
  }

  /** One component: an empty one steps to the parent the inode names, any other is looked up
      in the directory. */
  function Step(vol: seq<byte>, m: Mounted, inode: seq<byte>, isOwner: bool, component: Key): Option<nat>
    requires |inode| == BLOCK
  {
    if !MaySearch(Mode(inode), isOwner) then None
    else if component == [] then Some(Parent(inode, m.shift))
    else
      match Stream(vol, inode, m.shift)
      case None => None
      case Some(stream) => Find(stream, component)
  }

  /** `walk`, from the inode at `block` on. */
  function WalkFrom(vol: seq<byte>, m: Mounted, block: nat, isOwner: bool, path: seq<Key>): Found
    decreases |path|
  {
    match ReadInode(vol, m, block)
    case None => NotFound
    case Some(inode) =>
      if path == [] then Describe(vol, m, inode)
      else
        match Step(vol, m, inode, isOwner, path[0])
        case None => NotFound
        case Some(next) => WalkFrom(vol, m, next, isOwner, path[1..])
  }

  // ----- a path's bytes

  const SLASH: byte := 0x2F

  /** The length of the first component. */
  function SlashAt(path: seq<byte>): (n: nat)
    ensures n <= |path| && SLASH !in path[..n] && (n < |path| ==> path[n] == SLASH)
  {
    if path == [] || path[0] == SLASH then 0
    else
      var n := SlashAt(path[1..]);
      assert path[..n + 1] == [path[0]] + path[1..][..n];
      n + 1
  }

  /** The components the walk takes one after another: a slash ends one, and at the end of the
      path it begins none. */
  function Components(path: seq<byte>): (cs: seq<Key>)
    ensures forall i | 0 <= i < |cs| :: SLASH !in cs[i]
    decreases |path|
  {
    if path == [] then []
    else
      var n := SlashAt(path);
      [path[..n]] + (if n + 1 < |path| then Components(path[n + 1..]) else [])
  }

  /** A path for components, a slash behind each. */
  function Spelled(cs: seq<Key>): seq<byte>
  {
    if cs == [] then [] else cs[0] + [SLASH] + Spelled(cs[1..])
  }

  lemma {:induction false} SlashIs(c: Key, rest: seq<byte>)
    requires SLASH !in c
    ensures SlashAt(c + [SLASH] + rest) == |c|
  {
    var path := c + [SLASH] + rest;
    if c != [] {
      assert path[0] == c[0] && path[1..] == c[1..] + [SLASH] + rest;
      SlashIs(c[1..], rest);
    }
  }

  /** Components without a slash are those of some path. */
  lemma {:induction false} SpelledReads(cs: seq<Key>)
    requires forall i | 0 <= i < |cs| :: SLASH !in cs[i]
    ensures Components(Spelled(cs)) == cs
  {
    hide SlashAt;
    if cs != [] {
      var path := Spelled(cs);
      SlashIs(cs[0], Spelled(cs[1..]));
      SpelledReads(cs[1..]);
      assert path[..|cs[0]|] == cs[0] && path[|cs[0]| + 1..] == Spelled(cs[1..]);
      assert cs == [cs[0]] + cs[1..];
    }
  }

  lemma NextComponent(path: seq<byte>, start: nat, end: nat)
    requires start < |path| && end == start + SlashAt(path[start..])
    ensures end <= |path|
    ensures Components(path[start..]) == [path[start..end]] + (if end + 1 < |path| then Components(path[end + 1..]) else [])
  {
    hide SlashAt;
    var rest := path[start..];
    assert rest[..end - start] == path[start..end];
    assert end + 1 < |path| ==> rest[end - start + 1..] == path[end + 1..];
  }

  lemma SlashNext(path: seq<byte>, end: nat)
    requires end < |path|
    ensures SlashAt(path[end..]) == if path[end] == SLASH then 0 else 1 + SlashAt(path[end + 1..])
  {
    assert path[end..][1..] == path[end + 1..];
  }

  /** `walk`. */
  method WalkPath(vol: seq<byte>, m: Mounted, isOwner: bool, path: seq<byte>) returns (found: Found)
    ensures found == WalkFrom(vol, m, m.root, isOwner, Components(path))
  {
    hide Components, SlashAt, Step, Describe, ReadInode;
    var block: nat := m.root;
    var inode := ReadInode(vol, m, block);
    if inode.None? {
      return NotFound;
    }
    var start := 0;
    ghost var left := Components(path);
    assert path[0..] == path;
    NothingLeft();
    while start < |path|
      invariant 0 <= start && inode == ReadInode(vol, m, block) && inode.Some?
      invariant left == if start < |path| then Components(path[start..]) else []
      invariant WalkFrom(vol, m, m.root, isOwner, Components(path)) == WalkFrom(vol, m, block, isOwner, left)
      decreases |path| - start
    {
      var end := start;
      while end < |path| && path[end] != SLASH
        invariant start <= end <= |path| && start + SlashAt(path[start..]) == end + SlashAt(path[end..])
      {
        SlashNext(path, end);
        end := end + 1;
      }
      if end < |path| {
        SlashNext(path, end);
      } else {
        NoSlash(path);
      }
      NextComponent(path, start, end);
      var next := Step(vol, m, inode.value, isOwner, path[start..end]);
      left := left[1..];
      if next.None? {
        return NotFound;
      }
      block := next.value;
      inode := ReadInode(vol, m, block);
      if inode.None? {
        return NotFound;
      }
      start := end + 1;
    }
    return Describe(vol, m, inode.value);
  }

  lemma NothingLeft()
    ensures Components([]) == []
  {
  }

  lemma NoSlash(path: seq<byte>)
    ensures SlashAt(path[|path|..]) == 0
  {
  }
}
