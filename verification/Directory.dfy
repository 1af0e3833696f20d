/**
 Looking a name up in a directory: namecmp and dirlookup of kernel/fs.c, and strncmp of kernel/string.c. A directory
 is a file of entries of sixteen bytes: an inode number, low byte first, and a name of up to fourteen bytes, filled
 with zeros. What mkfs writes is found again under its name.
 */
module Directory {
  import opened Common
  import opened FileSystem
  import M = Mkfs

  const SIZE: nat := M.DIRENT
  const DIRSIZ: nat := M.DIRSIZ

  /** The string in a field: up to its first zero, or all of it. */
  function StringIn(field: seq<nat>): seq<nat> {
    if field == [] || field[0] == 0 then [] else [field[0]] + StringIn(field[1..])
  }

  /** The part of a name that counts. */
  function Cut(name: seq<nat>): seq<nat> {
    if |name| <= DIRSIZ then name else name[..DIRSIZ]
  }

  lemma {:induction false} StringFrom(field: seq<nat>, i: nat)
    requires i <= |field| && 0 !in field[..i]
    ensures StringIn(field) == field[..i] + StringIn(field[i..])
    decreases i
  {
    if i == 0 {
      assert field[..0] + StringIn(field) == StringIn(field) && field[0..] == field;
    } else {
      assert field[0] == field[..i][0] && field[1..][..i - 1] == field[..i][1..] && field[1..][i - 1..] == field[i..];
      StringFrom(field[1..], i - 1);
    }
  }

  lemma {:induction false} StringNoZero(field: seq<nat>)
    ensures 0 !in StringIn(field) && |StringIn(field)| <= |field|
  {
    if field != [] && field[0] != 0 {
      StringNoZero(field[1..]);
    }
  }

  /** namecmp, that is strncmp up to DIRSIZ: the same name, as far as it counts. */
  method Namecmp(name: seq<nat>, field: seq<nat>) returns (same: bool)
    requires |field| == DIRSIZ && 0 !in name
    ensures same <==> StringIn(field) == Cut(name)
  {
    var n, i := DIRSIZ, 0;
    while n > 0 && i < |name| && name[i] == field[i]
      invariant 0 <= n && n + i == DIRSIZ && i <= |name| && name[..i] == field[..i]
    {
      n, i := n - 1, i + 1;
    }
    assert 0 !in field[..i] by {
      assert forall x | x in name[..i] :: x in name;
    }
    StringFrom(field, i);
    StringNoZero(field[i..]);
    if n == 0 {
      assert field[i..] == [] && field[..i] == Cut(name);
      same := true;
    } else {
      var p := if i < |name| then name[i] else 0;
      same := p == field[i];
      Stopped(name, field, i);
    }
  }

  lemma Stopped(name: seq<nat>, field: seq<nat>, i: nat)
    requires |field| == DIRSIZ && 0 !in name && i < DIRSIZ && i <= |name| && name[..i] == field[..i]
    requires StringIn(field) == field[..i] + StringIn(field[i..])
    requires i < |name| ==> name[i] != field[i]
    ensures StringIn(field) == Cut(name) <==> i == |name| && field[i] == 0
  {
    assert field[i..][0] == field[i];
    if i < |name| {
      assert Cut(name)[i] == name[i];
      assert field[i] != 0 ==> StringIn(field)[i] == field[i];
    } else {
      assert Cut(name) == name == field[..i];
      assert field[i] != 0 ==> |StringIn(field)| > i;
    }
  }

  function Inum(entry: seq<nat>): nat
    requires |entry| == SIZE
  {
    entry[0] + 256 * entry[1]
  }

  /** Entry k of a directory. */
  function EntryAt(dir: seq<nat>, k: nat): seq<nat>
    requires (k + 1) * SIZE <= |dir|
  {
    dir[k * SIZE..(k + 1) * SIZE]
  }

  /** Entry k is in use and has the name. */
  predicate Has(dir: seq<nat>, k: nat, name: seq<nat>) {
    && (k + 1) * SIZE <= |dir| && Inum(EntryAt(dir, k)) != 0 && StringIn(EntryAt(dir, k)[2..]) == Cut(name)
  }

  /** Entry k is the first with the name. */
  ghost predicate FirstWith(dir: seq<nat>, k: nat, name: seq<nat>) {
    Has(dir, k, name) && forall j: nat | j < k :: !Has(dir, j, name)
  }

  lemma FirstUnique(dir: seq<nat>, j: nat, k: nat, name: seq<nat>)
    requires FirstWith(dir, j, name) && FirstWith(dir, k, name)
    ensures j == k
  {
  }

  lemma EntryRead(blocks: seq<Block>, inodes: Inodes, i: nat, k: nat, de: seq<nat>)
    requires i in inodes && (k + 1) * SIZE <= inodes[i].size && |de| == SIZE
    requires Shows(blocks, inodes, i, k * SIZE, de)
    ensures (k + 1) * SIZE <= |Contents(blocks, inodes, i)| && EntryAt(Contents(blocks, inodes, i), k) == de
  {
    hide FileByte;
  }

  lemma NoHoleIn(blocks: seq<Block>, inodes: Inodes, i: nat, k: nat, n: nat)
    requires k < n && NoHole(blocks, inodes, i, 0, n * SIZE)
    ensures NoHole(blocks, inodes, i, k * SIZE, SIZE)
  {
    hide HasBlock;
  }

  /** The name is in entry n, and there is no hole up to it. */
  ghost predicate Near(blocks: seq<Block>, inodes: Inodes, i: nat, name: seq<nat>, n: nat)
    requires i in inodes
  {
    FirstWith(Contents(blocks, inodes, i), n, name) && NoHole(blocks, inodes, i, 0, (n + 1) * SIZE)
  }

  /** dirlookup on its way: the first k entries are not it. */
  ghost predicate Looking(fs: Fs, blocks: seq<Block>, inodes: Inodes, i: nat, name: seq<nat>, k: nat)
    requires i in inodes
    reads fs
  {
    && fs.Valid() && i in fs.inodes && fs.inodes[i].size == inodes[i].size
    && SameFiles(blocks, inodes, fs.blocks, fs.inodes) && Stays(blocks, inodes, fs.blocks, fs.inodes)
    && forall j: nat | j < k :: !Has(Contents(blocks, inodes, i), j, name)
  }

  lemma NearReads(blocks: seq<Block>, inodes: Inodes, i: nat, name: seq<nat>, n: nat, k: nat)
    requires i in inodes && Near(blocks, inodes, i, name, n)
    requires forall j: nat | j < k :: !Has(Contents(blocks, inodes, i), j, name)
    ensures k <= n && (n + 1) * SIZE <= inodes[i].size && NoHole(blocks, inodes, i, k * SIZE, SIZE)
  {
    hide NoHole;
    NoHoleIn(blocks, inodes, i, k, n + 1);
  }

  lemma PastEnd(blocks: seq<Block>, inodes: Inodes, i: nat, name: seq<nat>, k: nat)
    requires i in inodes && inodes[i].size <= k * SIZE
    ensures forall j: nat | j >= k :: !Has(Contents(blocks, inodes, i), j, name)
    ensures |Contents(blocks, inodes, i)| == inodes[i].size
  {
  }

  /** dirlookup: the inode number of the first entry in use with the name, 0 if there is none. It fails, where the
      kernel panics, only if the directory ends within an entry, or at a hole on a full disk. */
  method Dirlookup(fs: Fs, i: nat, name: seq<nat>) returns (ok: bool, inum: nat, ghost k: nat)
    requires fs.Valid() && i in fs.inodes && 0 !in name
    modifies fs
    ensures fs.Valid() && SameFiles(old(fs.blocks), old(fs.inodes), fs.blocks, fs.inodes)
    ensures Stays(old(fs.blocks), old(fs.inodes), fs.blocks, fs.inodes)
    ensures var dir := Contents(old(fs.blocks), old(fs.inodes), i);
      && (ok && inum != 0 ==> FirstWith(dir, k, name) && inum == Inum(EntryAt(dir, k)))
      && (ok && inum == 0 ==> forall j: nat :: !Has(dir, j, name))
    ensures !ok ==> old(fs.inodes)[i].size % SIZE != 0 || forall c | 0 <= c < |fs.used| :: fs.used[c]
    ensures (exists n: nat :: Near(old(fs.blocks), old(fs.inodes), i, name, n)) ==> ok && inum != 0 && unchanged(fs)
  {
    hide FsOk, SameFiles, Stays, Shows, NoHole, Contents, StringIn, Cut, Inum, EntryAt, Has, FirstWith, Near;
    ghost var blocks0, inodes0 := fs.blocks, fs.inodes;
    ghost var near := exists n: nat :: Near(blocks0, inodes0, i, name, n);
    SizeBound(fs.nmeta, fs.used, fs.blocks, fs.inodes, fs.owner, i);
    Unchanged(fs.blocks, fs.inodes);
    ok, inum, k := true, 0, 0;
    var off := 0;
    while off < fs.inodes[i].size
      invariant off == k * SIZE && ok && inum == 0 && Looking(fs, blocks0, inodes0, i, name, k)
      invariant near ==> unchanged(fs)
      decreases inodes0[i].size - off
    {
      ghost var n: nat;
      if near {
        n :| Near(blocks0, inodes0, i, name, n);
        NearReads(blocks0, inodes0, i, name, n, k);
      }
      ghost var blocks1, inodes1 := fs.blocks, fs.inodes;
      var r, de := fs.Readi(i, off, SIZE, SIZE);
      SameTrans(blocks0, inodes0, blocks1, inodes1, fs.blocks, fs.inodes);
      SameSize(blocks0, inodes0, fs.blocks, fs.inodes, i);
      if r != SIZE {
        ok := false;
        return;
      }
      SameShows(blocks0, inodes0, blocks1, inodes1, i, off, de);
      EntryRead(blocks0, inodes0, i, k, de);
      HasIs(Contents(blocks0, inodes0, i), k, name, de);
      if Inum(de) != 0 {
        var same := Namecmp(name, de[2..]);
        if same {
          inum := Inum(de);
          FirstIs(Contents(blocks0, inodes0, i), k, name);
          return;
        }
      }
      off, k := off + SIZE, k + 1;
    }
    PastEnd(blocks0, inodes0, i, name, k);
    if near {
      var n: nat :| Near(blocks0, inodes0, i, name, n);
      NearReads(blocks0, inodes0, i, name, n, k);
    }
  }

  lemma HasIs(dir: seq<nat>, k: nat, name: seq<nat>, de: seq<nat>)
    requires (k + 1) * SIZE <= |dir| && |de| == SIZE && EntryAt(dir, k) == de
    ensures Has(dir, k, name) <==> Inum(de) != 0 && StringIn(de[2..]) == Cut(name)
  {
  }

  lemma FirstIs(dir: seq<nat>, k: nat, name: seq<nat>)
    requires Has(dir, k, name) && forall j: nat | j < k :: !Has(dir, j, name)
    ensures FirstWith(dir, k, name) && (k + 1) * SIZE <= |dir|
  {
  }

  lemma SameShows(blocks: seq<Block>, inodes: Inodes, blocks': seq<Block>, inodes': Inodes, i: nat, off: nat,
      de: seq<nat>)
    requires SameFiles(blocks, inodes, blocks', inodes') && Shows(blocks', inodes', i, off, de)
    ensures Shows(blocks, inodes, i, off, de)
  {
    hide FileByte;
  }

  lemma SameSize(blocks: seq<Block>, inodes: Inodes, blocks': seq<Block>, inodes': Inodes, i: nat)
    requires SameFiles(blocks, inodes, blocks', inodes') && i in inodes
    ensures i in inodes' && inodes'[i].size == inodes[i].size
  {
    hide FileByte;
  }

  lemma NearIs(blocks: seq<Block>, inodes: Inodes, i: nat, name: seq<nat>, n: nat, k: nat)
    requires i in inodes && Near(blocks, inodes, i, name, n)
    ensures exists m: nat :: Near(blocks, inodes, i, name, m)
    ensures FirstWith(Contents(blocks, inodes, i), k, name) ==> k == n
  {
    hide NoHole, Contents;
    if FirstWith(Contents(blocks, inodes, i), k, name) {
      FirstUnique(Contents(blocks, inodes, i), n, k, name);
    }
  }

  // What mkfs writes.

  /** An entry of mkfs reads back. */
  lemma EntryIs(inum: nat, name: seq<nat>)
    requires inum < 0x1_0000 && 0 !in name
    ensures Inum(M.Entry(inum, name)) == inum && StringIn(M.Entry(inum, name)[2..]) == Cut(name)
  {
    var field := M.Entry(inum, name)[2..];
    var n := Min(|name|, DIRSIZ);
    assert field[..n] == Cut(name) && forall x | x in Cut(name) :: x in name;
    StringFrom(field, n);
    assert field[n..] == [] || field[n..][0] == 0;
  }

  lemma {:induction false} DirectoryAt(names: seq<seq<nat>>, n: nat, j: nat)
    requires n <= |names| && j < n + 2
    ensures (j + 1) * SIZE <= |M.Directory(names, n)|
    ensures EntryAt(M.Directory(names, n), j) == if j == 0 then M.Entry(M.ROOTINO, M.DOT)
      else if j == 1 then M.Entry(M.ROOTINO, M.DOTDOT) else M.Entry(M.ROOTINO + j - 1, names[j - 2])
    decreases n
  {
    hide M.Entry;
    if n > 0 && j < n + 1 {
      DirectoryAt(names, n - 1, j);
    }
  }

  /** Every name but . and .. , without zero bytes. */
  predicate GoodNames(names: seq<seq<nat>>) {
    forall j | 0 <= j < |names| :: 0 !in names[j] && Cut(names[j]) != M.DOT && Cut(names[j]) != M.DOTDOT
  }

  lemma NameIsGood(names: seq<seq<nat>>, k: nat)
    requires GoodNames(names) && k < |names|
    ensures 0 !in names[k]
  {
  }

  /** The root directory of an image, up to the rounded size: an entry is where its name was in the command line, two
      places later. */
  lemma MadeHas(image: M.Image, names: seq<seq<nat>>, contents: seq<seq<nat>>, j: nat, name: seq<nat>)
    requires |names| == |contents| <= 202 && GoodNames(names) && M.Made(image, names, contents) && j < |names| + 2
    ensures var dir := Contents(image.blocks, image.inodes, M.ROOTINO);
      && (j + 1) * SIZE <= |dir| && Inum(EntryAt(dir, j)) == (if j < 2 then M.ROOTINO else M.ROOTINO + j - 1)
      && (Has(dir, j, name) <==>
           (if j == 0 then M.DOT else if j == 1 then M.DOTDOT else Cut(names[j - 2])) == Cut(name))
  {
    hide M.Entry, M.Directory, FileByte, StringIn, Inum, NoHole, Cut;
    var dir, all := Contents(image.blocks, image.inodes, M.ROOTINO), M.Directory(names, |names|);
    DirectoryAt(names, |names|, j);
    assert M.ShowsAll(image.blocks, image.inodes, M.ROOTINO, all);
    RoundedSize((|names| + 2) * SIZE);
    assert dir[..|all|] == all;
    assert EntryAt(dir, j) == EntryAt(all, j);
    Dots();
    if j == 0 {
      EntryIs(M.ROOTINO, M.DOT);
    } else if j == 1 {
      EntryIs(M.ROOTINO, M.DOTDOT);
    } else {
      EntryIs(M.ROOTINO + j - 1, names[j - 2]);
    }
  }

  lemma Dots()
    ensures Cut(M.DOT) == M.DOT && Cut(M.DOTDOT) == M.DOTDOT && 0 !in M.DOT && 0 !in M.DOTDOT
  {
  }

  lemma RoundedSize(n: nat)
    ensures n <= (n / BSIZE + 1) * BSIZE
  {
  }

  /** dirlookup finds file k under its name, if no file before it has the same name. */
  lemma MadeFinds(image: M.Image, names: seq<seq<nat>>, contents: seq<seq<nat>>, k: nat)
    requires |names| == |contents| <= 202 && GoodNames(names) && M.Made(image, names, contents) && k < |names|
    requires forall j | 0 <= j < k :: Cut(names[j]) != Cut(names[k])
    ensures M.ROOTINO in image.inodes && Near(image.blocks, image.inodes, M.ROOTINO, names[k], k + 2)
    ensures var dir := Contents(image.blocks, image.inodes, M.ROOTINO);
      (k + 3) * SIZE <= |dir| && Inum(EntryAt(dir, k + 2)) == M.ROOTINO + 1 + k
  {
    hide M.Directory, Contents, Inum, EntryAt, Has, Cut, HasBlock, M.ShowsAll;
    var dir := Contents(image.blocks, image.inodes, M.ROOTINO);
    forall j: nat | j < k + 2 ensures !Has(dir, j, names[k]) {
      MadeHas(image, names, contents, j, names[k]);
    }
    MadeHas(image, names, contents, k + 2, names[k]);
    assert NoHole(image.blocks, image.inodes, M.ROOTINO, 0, (|names| + 2) * SIZE);
    assert (k + 3) * SIZE <= (|names| + 2) * SIZE;
  }
}
