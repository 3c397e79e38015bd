// Files over the log: xv6-x86/fs.c writes through log_write of xv6-x86/log.c. What a crash
// leaves on disk recovers to files as whole operations have left them.
module CrashFiles {
  import opened LogFormat
  import opened LogRuns
  import opened LogDurable
  import opened FsLayout
  import opened FsInodes
  import opened FsState
  import opened FsSteps
  import opened FsRoom
  import opened FsFiles

  // What an inode is, and what its blocks hold.
  datatype File = File(kind: nat, major: nat, minor: nat, nlink: nat, data: seq<Byte>)

  type Files = map<nat, File>

  // ---- a block as the log has it, 128 words, and as the file system has it, 512 bytes

  function ToWords(d: seq<Byte>): (w: Block)
    requires |d| == BSIZE
    ensures |w| == WORDS
  {
    seq(WORDS, j requires 0 <= j < WORDS => UintAt(d, j))
  }

  function ByteOf(w: int, k: nat): Byte {
    if k == 0 then w % 0x100
    else if k == 1 then w / 0x100 % 0x100
    else if k == 2 then w / 0x1_0000 % 0x100
    else w / 0x100_0000 % 0x100
  }

  function ToBytes(w: Block): (d: seq<Byte>)
    requires |w| == WORDS
    ensures |d| == BSIZE
  {
    seq(BSIZE, x requires 0 <= x < BSIZE => ByteOf(w[x / 4], x % 4))
  }

  lemma BytesOfUint(a: Byte, b: Byte, c: Byte, d: Byte)
    ensures var w := (a as nat) + 0x100 * (b as nat) + 0x1_0000 * (c as nat) + 0x100_0000 * (d as nat);
      ByteOf(w, 0) == a && ByteOf(w, 1) == b && ByteOf(w, 2) == c && ByteOf(w, 3) == d
  {
    var w2: int := c + 0x100 * d;
    var w1: int := b + 0x100 * w2;
    var w := a + 0x100 * w1;
    assert w % 0x100 == a && w / 0x100 == w1;
    assert w1 % 0x100 == b && w1 / 0x100 == w2;
    assert w / 0x1_0000 == w1 / 0x100 && w / 0x100_0000 == w2 / 0x100;
  }

  /** What is written as words is read back as the same bytes. */
  lemma BytesBack(d: seq<Byte>)
    requires |d| == BSIZE
    ensures ToBytes(ToWords(d)) == d
  {
    hide ByteOf;
    forall x | 0 <= x < BSIZE
      ensures ToBytes(ToWords(d))[x] == d[x]
    {
      var j := x / 4;
      BytesOfUint(d[4 * j], d[4 * j + 1], d[4 * j + 2], d[4 * j + 3]);
      assert x == 4 * j + x % 4;
    }
  }

  // ---- files on a disk image

  // The log lies in front of the inode blocks.
  ghost predicate Before(L: Layout, sb: Super) {
    L.Valid() && L.total == sb.size && L.start + L.size <= sb.inodestart && sb.Sane()
  }

  ghost predicate Image(m: Disk, sb: Super) {
    |m| == sb.size && forall b :: 0 <= b < |m| ==> |m[b]| == WORDS
  }

  // The image has the inode blocks itable, and from the bitmap on the blocks of disk.
  ghost predicate Shown(sb: Super, m: Disk, disk: seq<seq<Byte>>, itable: seq<seq<Byte>>) {
    && Image(m, sb) && |disk| == sb.size && Table(itable) && sb.inodestart + |itable| <= sb.bmapstart <= sb.size
    && (forall b :: sb.bmapstart <= b < sb.size ==> disk[b] == ToBytes(m[b]))
    && (forall k :: 0 <= k < |itable| ==> itable[k] == ToBytes(m[sb.inodestart + k]))
  }

  // The file system is between operations, with these inodes in memory.
  ghost predicate Rest(sb: Super, st: St, itable: seq<seq<Byte>>, nb: map<nat, nat>) {
    Good(sb, st, nb) && Tight(st.inodes, nb) && Synced(itable, st.inodes)
  }

  ghost function FileIn(st: St, i: nat): File
    requires i in st.inodes
  {
    var ip := st.inodes[i];
    File(ip.kind, ip.major, ip.minor, ip.nlink, Content(st, i))
  }

  ghost function FilesIn(st: St): Files {
    map i | i in st.inodes :: FileIn(st, i)
  }

  /** The image holds the files f, each in its inode and its blocks, and no block is in two. */
  ghost predicate AtRest(sb: Super, m: Disk, f: Files) {
    exists st: St, itable, nb :: Shown(sb, m, st.disk, itable) && Rest(sb, st, itable, nb) && FilesIn(st) == f
  }

  // Nothing in the log is looked at.
  lemma RestHome(sb: Super, L: Layout, m: Disk, m': Disk, f: Files)
    requires Before(L, sb) && SameHome(m, m', L) && Image(m', sb) && AtRest(sb, m, f)
    ensures AtRest(sb, m', f)
  {
    hide Rest, ToBytes, FilesIn;
    var st: St, itable, nb :| Shown(sb, m, st.disk, itable) && Rest(sb, st, itable, nb) && FilesIn(st) == f;
    forall b | sb.inodestart <= b < sb.size
      ensures m'[b] == m[b]
    {
      assert L.IsHome(b);
    }
    assert Shown(sb, m', st.disk, itable);
  }

  // ---- the files are determined by the image

  lemma SameInode(i: nat, ta: seq<seq<Byte>>, tb: seq<seq<Byte>>, sb: Super, m: Disk, da: seq<seq<Byte>>,
      db: seq<seq<Byte>>, a: map<nat, Inode>, b: map<nat, Inode>)
    requires Shown(sb, m, da, ta) && Shown(sb, m, db, tb) && Synced(ta, a) && Synced(tb, b) && i in a && i in b
    ensures a[i] == b[i]
  {
    hide InodeAt, ToBytes;
  }

  lemma SameSlot(sb: Super, s: St, t: St, nb: map<nat, nat>, i: nat, k: nat)
    requires Good(sb, s, nb) && i in nb && i in s.inodes && i in t.inodes && t.inodes[i] == s.inodes[i]
    requires |t.disk| == |s.disk| == sb.size && forall b :: sb.datastart <= b < sb.size ==> t.disk[b] == s.disk[b]
    ensures Slot(t, i, k) == Slot(s, i, k)
  {
    hide Slot, Marked;
    GoodParts(sb, s, nb, i);
    if Slot(s, i, INDIRECT) != 0 { HeldAt(sb, s, i, INDIRECT); }
    SlotFrame(s, t, i, k);
  }

  lemma SameContentOf(sb: Super, s: St, t: St, nb: map<nat, nat>, i: nat)
    requires Good(sb, s, nb) && Tight(s.inodes, nb) && i in s.inodes && i in t.inodes && t.inodes[i] == s.inodes[i]
    requires |t.disk| == |s.disk| == sb.size && forall b :: sb.datastart <= b < sb.size ==> t.disk[b] == s.disk[b]
    ensures Content(t, i) == Content(s, i)
  {
    hide Slot, Marked, Good, ByteAt;
    TightOf(s.inodes, nb, i);
    GoodParts(sb, s, nb, i);
    forall x: nat | x < s.inodes[i].size
      ensures ByteAt(t, i, x) == ByteAt(s, i, x)
    {
      BytePlace(s.inodes[i].size, x);
      SameSlot(sb, s, t, nb, i, x / BSIZE);
      HeldAt(sb, s, i, x / BSIZE);
      SameByte(s, t, i, x);
    }
    SameContent(s, t, i);
  }

  lemma BytePlace(size: nat, x: nat)
    requires x < size
    ensures x / BSIZE < BlocksFor(size)
  {
  }

  lemma SameByte(s: St, t: St, i: nat, x: nat)
    requires Slot(t, i, x / BSIZE) == Slot(s, i, x / BSIZE) && |t.disk| == |s.disk|
    requires var b := Slot(s, i, x / BSIZE); b < |s.disk| ==> t.disk[b] == s.disk[b]
    ensures ByteAt(t, i, x) == ByteAt(s, i, x)
  {
    hide Slot;
  }

  lemma RestSame(sb: Super, m: Disk, s: St, ta: seq<seq<Byte>>, na: map<nat, nat>, t: St, tb: seq<seq<Byte>>,
      nb: map<nat, nat>, i: nat)
    requires sb.Sane() && Shown(sb, m, s.disk, ta) && Rest(sb, s, ta, na) && Shown(sb, m, t.disk, tb)
    requires Rest(sb, t, tb, nb) && i in s.inodes && i in t.inodes
    ensures FileIn(t, i) == FileIn(s, i)
  {
    hide Good, ToBytes, Tight, Synced, Content;
    SameInode(i, ta, tb, sb, m, s.disk, t.disk, s.inodes, t.inodes);
    SameContentOf(sb, s, t, na, i);
  }

  /** So there is one reading of an image, for the files of the same inodes. */
  lemma RestUnique(sb: Super, m: Disk, f: Files, g: Files)
    requires AtRest(sb, m, f) && AtRest(sb, m, g) && f.Keys == g.Keys && sb.Sane()
    ensures f == g
  {
    hide Rest, Shown, FileIn;
    var s: St, ta, na :| Shown(sb, m, s.disk, ta) && Rest(sb, s, ta, na) && FilesIn(s) == f;
    var t: St, tb, nb :| Shown(sb, m, t.disk, tb) && Rest(sb, t, tb, nb) && FilesIn(t) == g;
    forall i | i in f
      ensures f[i] == g[i]
    {
      assert i in f.Keys && i in g.Keys;
      RestSame(sb, m, s, ta, na, t, tb, nb, i);
    }
  }

  // ---- an operation's writes

  // The blocks of s, each written once, as the file system has them now.
  ghost predicate Writes(ws: seq<Write>, s: set<nat>, now: map<nat, Block>) {
    && (forall k :: 0 <= k < |ws| ==> ws[k].b >= 0 && ws[k].b in s && ws[k].b in now && ws[k].data == now[ws[k].b])
    && (forall b :: b in s ==> exists k :: 0 <= k < |ws| && ws[k].b == b)
    && (forall j, k :: 0 <= j < k < |ws| ==> ws[j].b != ws[k].b)
  }

  lemma {:induction false} WritesOf(s: set<nat>, now: map<nat, Block>, op: nat) returns (ws: seq<Write>)
    requires s <= now.Keys
    ensures Writes(ws, s, now) && |ws| == |s| && forall k :: 0 <= k < |ws| ==> ws[k].op == op
    decreases s
  {
    hide Writes;
    if s == {} {
      ws := [];
      WritesNone(now);
    } else {
      var b :| b in s;
      var p := WritesOf(s - {b}, now, op);
      ws := p + [Write(op, b, now[b])];
      WritesMore(p, s - {b}, now, op, b);
      assert s == s - {b} + {b};
    }
  }

  lemma WritesNone(now: map<nat, Block>)
    ensures Writes([], {}, now)
  {
  }

  lemma WritesMore(p: seq<Write>, s: set<nat>, now: map<nat, Block>, op: nat, b: nat)
    requires Writes(p, s, now) && b in now && b !in s
    ensures Writes(p + [Write(op, b, now[b])], s + {b}, now)
  {
    var ws := p + [Write(op, b, now[b])];
    forall c | c in s + {b}
      ensures exists k :: 0 <= k < |ws| && ws[k].b == c
    {
      if c == b {
        assert ws[|p|].b == c;
      } else {
        var k :| 0 <= k < |p| && p[k].b == c;
        assert ws[k].b == c;
      }
    }
  }

  lemma {:induction false} Applied(m: Disk, ws: seq<Write>, b: nat)
    requires b < |m| && forall j, k :: 0 <= j < k < |ws| ==> ws[j].b != ws[k].b
    ensures (forall k :: 0 <= k < |ws| ==> ws[k].b != b) ==> Apply(m, ws)[b] == m[b]
    ensures forall k :: 0 <= k < |ws| && ws[k].b == b ==> Apply(m, ws)[b] == ws[k].data
    decreases |ws|
  {
    if ws != [] {
      Applied(m, ws[..|ws| - 1], b);
    }
  }

  lemma AppliedAt(m: Disk, ws: seq<Write>, s: set<nat>, now: map<nat, Block>, b: nat)
    requires b < |m| && Writes(ws, s, now)
    ensures b in s ==> b in now && Apply(m, ws)[b] == now[b]
    ensures b !in s ==> Apply(m, ws)[b] == m[b]
  {
    Applied(m, ws, b);
    if b in s {
      var k :| 0 <= k < |ws| && ws[k].b == b;
    }
  }

  // What the blocks from the inodes on hold.
  ghost function BlocksNow(sb: Super, disk: seq<seq<Byte>>, itable: seq<seq<Byte>>): map<nat, Block>
    requires Blocks(sb, disk) && Table(itable)
  {
    map b: nat | sb.inodestart <= b < sb.size ::
      ToWords(if b < sb.inodestart + |itable| then itable[b - sb.inodestart] else disk[b])
  }

  // The blocks of the file system among those given to log_write.
  function Ours(sb: Super, logged: set<nat>): set<nat> { set b | b in logged && sb.inodestart <= b < sb.size }

  /** If every block that an operation changed is among those it gave to log_write, writing
      these blocks to the image it started from gives the image it ended with. */
  lemma WritesShow(sb: Super, m: Disk, disk: seq<seq<Byte>>, itable: seq<seq<Byte>>, disk': seq<seq<Byte>>,
      itable': seq<seq<Byte>>, logged: set<nat>, ws: seq<Write>)
    requires Shown(sb, m, disk, itable) && Blocks(sb, disk') && Table(itable') && |itable'| == |itable|
    requires Touched(disk, disk', logged)
    requires forall k :: 0 <= k < |itable| && k + sb.inodestart !in logged ==> itable'[k] == itable[k]
    requires Writes(ws, Ours(sb, logged), BlocksNow(sb, disk', itable'))
    ensures Shown(sb, Apply(m, ws), disk', itable')
  {
    hide ToBytes, ToWords, Writes, BlocksNow;
    var s := Ours(sb, logged);
    var m', now := Apply(m, ws), BlocksNow(sb, disk', itable');
    forall b: nat | b < sb.size
      ensures |m'[b]| == WORDS
      ensures sb.bmapstart <= b ==> disk'[b] == ToBytes(m'[b])
    {
      AppliedAt(m, ws, s, now, b);
      if b in s { NowAt(sb, disk', itable', b); }
      if b in s && sb.bmapstart <= b { BytesBack(disk'[b]); }
    }
    forall k | 0 <= k < |itable'|
      ensures itable'[k] == ToBytes(m'[sb.inodestart + k])
    {
      AppliedAt(m, ws, s, now, sb.inodestart + k);
      if sb.inodestart + k in s {
        NowAt(sb, disk', itable', sb.inodestart + k);
        BytesBack(itable'[k]);
      }
    }
  }

  // ---- operations on files

  // The file with src put in at off; its type, device and links stay.
  ghost function Put(f: File, off: nat, src: seq<Byte>): File
    requires off <= |f.data|
  {
    f.(data := Splice(f.data, off, src))
  }

  /** The writes ws of an operation, made to an image that holds the files f, give one that
      holds f': some file has had bytes put in, and no other file has changed. */
  ghost predicate WritesFile(sb: Super, m: Disk, ws: seq<Write>, f: Files, f': Files) {
    && AtRest(sb, m, f) && AtRest(sb, Apply(m, ws), f')
    && exists i, off: nat, src :: i in f && off <= |f[i].data| && f' == f[i := Put(f[i], off, src)]
  }

  /** writei as one operation. The blocks it gives to log_write, as they are at its end, are
      writes that carry the image of the disk to the state it leaves. */
  method WriteOperation(fs: FileSystem, i: nat, src: seq<Byte>, off: nat, n: nat, ghost m: Disk, ghost op: nat)
      returns (r: int, ok: bool, ghost ws: seq<Write>)
    requires fs.Quiet() && fs.logged == {} && i in fs.inodes && off < WORD && n < WORD && n <= |src|
    requires Shown(fs.sb, m, fs.disk, fs.itable)
    modifies fs`disk, fs`inodes, fs`itable, fs`nb, fs`logged
    ensures r != -1 && ok ==> fs.Quiet() && Shown(fs.sb, Apply(m, ws), fs.disk, fs.itable)
    ensures r != -1 && ok ==> WritesFile(fs.sb, m, ws, old(FilesIn(fs.Now())), FilesIn(fs.Now()))
    ensures r != -1 && ok ==> forall k :: 0 <= k < |ws| ==>
      ws[k].op == op && fs.sb.inodestart <= ws[k].b < fs.sb.size && |ws[k].data| == WORDS
    ensures r != -1 && ok && n <= CHUNK ==> |ws| <= LogFormat.MAXOPBLOCKS
  {
    hide Good, Tight, Synced, Content, Splice, ToWords, ToBytes, Touched, Shown, Writes, AtRest, FilesIn, Rest;
    ghost var sb, st, itable, nb := fs.sb, fs.Now(), fs.itable, fs.nb;
    r, ok := fs.Writei(i, src, off, n);
    ws := [];
    if r != -1 && ok {
      ghost var s := Ours(sb, fs.logged);
      BlocksAre(sb, fs.Now(), fs.itable, fs.nb, i, fs.logged);
      ws := WritesOf(s, BlocksNow(sb, fs.disk, fs.itable), op);
      WritesShow(sb, m, st.disk, itable, fs.disk, fs.itable, fs.logged, ws);
      WritesParts(sb, fs.disk, fs.itable, s, ws);
      RestIs(sb, m, st, itable, nb);
      RestIs(sb, Apply(m, ws), fs.Now(), fs.itable, fs.nb);
      FilesSpliced(st, fs.Now(), i, off, src[..n]);
      SubsetSize(s, fs.logged);
      assert fs.logged - {} == fs.logged;
    }
  }

  lemma BlocksAre(sb: Super, st: St, itable: seq<seq<Byte>>, nb: map<nat, nat>, i: nat, logged: set<nat>)
    requires Good(sb, st, nb) && Tight(st.inodes, nb) && Synced(itable, st.inodes) && i in st.inodes
    ensures Blocks(sb, st.disk) && Table(itable) && Ours(sb, logged) <= BlocksNow(sb, st.disk, itable).Keys
    ensures Ours(sb, logged) <= logged
  {
    hide ToWords, Slot, Marked;
    GoodParts(sb, st, nb, i);
  }

  lemma WritesParts(sb: Super, disk: seq<seq<Byte>>, itable: seq<seq<Byte>>, s: set<nat>, ws: seq<Write>)
    requires Blocks(sb, disk) && Table(itable) && Writes(ws, s, BlocksNow(sb, disk, itable))
    ensures forall k :: 0 <= k < |ws| ==> sb.inodestart <= ws[k].b < sb.size && |ws[k].data| == WORDS
  {
    hide ToWords;
    var now := BlocksNow(sb, disk, itable);
    forall k | 0 <= k < |ws|
      ensures sb.inodestart <= ws[k].b < sb.size && |ws[k].data| == WORDS
    {
      NowAt(sb, disk, itable, ws[k].b);
    }
  }

  lemma NowAt(sb: Super, disk: seq<seq<Byte>>, itable: seq<seq<Byte>>, b: nat)
    requires Blocks(sb, disk) && Table(itable)
    ensures b in BlocksNow(sb, disk, itable) <==> sb.inodestart <= b < sb.size
    ensures b in BlocksNow(sb, disk, itable) ==>
      var d := if b < sb.inodestart + |itable| then itable[b - sb.inodestart] else disk[b];
      BlocksNow(sb, disk, itable)[b] == ToWords(d)
  {
  }

  lemma RestIs(sb: Super, m: Disk, st: St, itable: seq<seq<Byte>>, nb: map<nat, nat>)
    requires Shown(sb, m, st.disk, itable) && Good(sb, st, nb) && Tight(st.inodes, nb) && Synced(itable, st.inodes)
    ensures AtRest(sb, m, FilesIn(st))
  {
    hide Good, Tight, Synced, Shown;
    assert Rest(sb, st, itable, nb);
  }

  lemma FilesSpliced(s: St, t: St, i: nat, off: nat, src: seq<Byte>)
    requires SameBut(s, t, i) && off <= |Content(s, i)|
    requires Content(t, i) == Splice(Content(s, i), off, src)
    ensures i in FilesIn(s) && off <= |FilesIn(s)[i].data|
    ensures FilesIn(t) == FilesIn(s)[i := Put(FilesIn(s)[i], off, src)]
  {
    hide Content, Splice;
    var f, g := FilesIn(s), FilesIn(t);
    assert g.Keys == f.Keys by { assert f.Keys == s.inodes.Keys && g.Keys == t.inodes.Keys; }
  }

  // ---- whole runs

  // The operations ops, one after the other on the files: fs are the files before, between
  // and after.
  ghost predicate Performed(sb: Super, image: Disk, ops: seq<seq<Write>>, fs: seq<Files>) {
    && |fs| == |ops| + 1 && AtRest(sb, image, fs[0])
    && forall k :: 0 <= k < |ops| ==> WritesFile(sb, Apply(image, Concat(ops[..k])), ops[k], fs[k], fs[k + 1])
  }

  lemma PerformedRest(sb: Super, image: Disk, ops: seq<seq<Write>>, fs: seq<Files>)
    requires Performed(sb, image, ops, fs)
    ensures AtRest(sb, Apply(image, Concat(ops)), fs[|ops|])
  {
    hide AtRest;
    if ops != [] {
      var n := |ops| - 1;
      assert WritesFile(sb, Apply(image, Concat(ops[..n])), ops[n], fs[n], fs[n + 1]);
      ApplyConcat(image, Concat(ops[..n]), ops[n]);
    }
  }

  /** Power may fail at any point of any run, in a commit and in a recovery too: if the
      operations that have been committed were performed on the files one after the other, the
      disk recovers to an image that holds the files as all of them, and nothing else, have
      left them. */
  lemma CrashKeepsFiles(ss: seq<State>, steps: seq<Step>, L: Layout, image: Disk, i: nat, sb: Super,
      ops: seq<seq<Write>>, fs: seq<Files>)
    requires Run(ss, steps, L, image) && i < |ss| && Before(L, sb) && GoodDisk(image, L)
    requires Concat(ops) == AllWrites(ss[i].h.committed) && Performed(sb, Recovered(image, L), ops, fs)
    ensures GoodDisk(ss[i].disk, L) && AtRest(sb, Recovered(ss[i].disk, L), fs[|ops|])
  {
    hide Run, AtRest, Recovered, Performed;
    CrashAtomicity(ss, steps, L, image, i);
    DurableIs(Recovered(image, L), ss[i].h.committed);
    PerformedRest(sb, Recovered(image, L), ops, fs);
    PerformedLength(sb, Recovered(image, L), ops, fs);
    RestHome(sb, L, Durable(Recovered(image, L), ss[i].h.committed), Recovered(ss[i].disk, L), fs[|ops|]);
  }

  lemma PerformedLength(sb: Super, image: Disk, ops: seq<seq<Write>>, fs: seq<Files>)
    requires Performed(sb, image, ops, fs)
    ensures |fs| == |ops| + 1
  {
  }

  // ---- no operation in part

  // Of one operation the concatenation has what its part has.
  lemma {:induction false} OnlyPart(ops: seq<seq<Write>>, order: seq<nat>, k: nat)
    requires |order| == |ops| && k < |ops| && Parts(ops, order)
    ensures Only(Concat(ops), order[k]) == ops[k]
    decreases |ops|
  {
    var n := |ops| - 1;
    var front := ops[..n];
    OnlyConcat(Concat(front), ops[n], order[k]);
    if k == n {
      OnlyAll(ops[n], order[n]);
      NoneOf(front, order[..n], order[n]);
    } else {
      OnlyPart(front, order[..n], k);
      OnlyAbsent(ops[n], order[k]);
    }
  }

  lemma {:induction false} NoneOf(ops: seq<seq<Write>>, order: seq<nat>, op: nat)
    requires |order| == |ops| && Parts(ops, order) && op !in order
    ensures Only(Concat(ops), op) == []
    decreases |ops|
  {
    if ops != [] {
      var n := |ops| - 1;
      OnlyConcat(Concat(ops[..n]), ops[n], op);
      NoneOf(ops[..n], order[..n], op);
      OnlyAbsent(ops[n], op);
    }
  }

  // Each part is of one operation, and no two are of the same.
  ghost predicate Parts(ops: seq<seq<Write>>, order: seq<nat>)
    requires |order| == |ops|
  {
    && (forall k, j :: 0 <= k < |ops| && 0 <= j < |ops[k]| ==> ops[k][j].op == order[k])
    && (forall j, k :: 0 <= j < k < |order| ==> order[j] != order[k])
  }

  /** And each of these operations is whole: its part is all that it ever gave to log_write. */
  lemma OperationsWhole(ss: seq<State>, steps: seq<Step>, L: Layout, image: Disk, i: nat, ops: seq<seq<Write>>,
      order: seq<nat>, k: nat)
    requires Run(ss, steps, L, image) && i < |ss|
    requires Concat(ops) == AllWrites(ss[i].h.committed) && |order| == |ops| && Parts(ops, order)
    requires k < |ops| && ops[k] != []
    ensures order[k] in ss[i].h.issued && ops[k] == ss[i].h.issued[order[k]]
  {
    hide Run, Recovered, GoodDisk, Durable, SameHome;
    CrashAtomicity(ss, steps, L, image, i);
    OnlyPart(ops, order, k);
    var groups := ss[i].h.committed;
    if forall g :: 0 <= g < |groups| ==> order[k] !in groups[g].ops {
      NotInGroups(groups, order[k], ss[i].h.issued);
    } else {
      var g :| 0 <= g < |groups| && order[k] in groups[g].ops;
      OnlyGroups(groups, g, order[k], ss[i].h.issued);
    }
  }
}
