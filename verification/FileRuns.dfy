/** Runs of file operations against files as plain byte sequences. */
module FileRuns {
  import opened InodeMap
  import opened InodeBytes

  datatype Op = Write(i: int, src: seq<int>, off: int) | Truncate(i: int)

  predicate Permitted(n: int, op: Op)
  {
    0 <= op.i < n && (op.Write? ==> Bytes(op.src) && 0 <= op.off < TWO32 && |op.src| < TWO32)
  }

  ghost function Files(fs: Fs): (r: seq<seq<int>>)
    requires Inv(fs)
    ensures |r| == |fs.inodes|
  {
    seq(|fs.inodes|, i requires 0 <= i < |fs.inodes| => assert InodeAt(fs, i); File(fs, i))
  }

  /** The operation on byte sequences. */
  function Apply(files: seq<seq<int>>, op: Op): (r: seq<seq<int>>)
    requires Permitted(|files|, op)
    ensures |r| == |files|
  {
    match op
    case Truncate(i) => files[i := []]
    case Write(i, src, off) =>
      if off <= |files[i]| && off + |src| <= MAXBYTES then files[i := Splice(files[i], off, src)] else files
  }

  ghost function ApplyAll(files: seq<seq<int>>, ops: seq<Op>): seq<seq<int>>
    requires forall x :: 0 <= x < |ops| ==> Permitted(|files|, ops[x])
    decreases |ops|
  {
    if ops == [] then files else ApplyAll(Apply(files, ops[0]), ops[1..])
  }

  /** The operation on the disk. */
  ghost predicate Step(fs: Fs, op: Op, fs': Fs)
  {
    && HasInode(fs, op.i) && Sized(fs) && |fs.dinodes| == |fs.inodes| && Permitted(|fs.inodes|, op)
    && match op
       case Truncate(i) => fs' == Trunc(fs, i)
       case Write(i, src, off) =>
         var w := Writei(fs, i, src, off);
         !w.NoSpace? && fs' == if w.Wrote? then w.fs else fs
  }

  ghost predicate Run(fs: Fs, ops: seq<Op>, states: seq<Fs>)
  {
    && |states| == |ops| + 1 && states[0] == fs
    && forall x :: 0 <= x < |ops| ==> Step(states[x], ops[x], states[x + 1])
  }

  lemma StepRefines(fs: Fs, op: Op, fs': Fs)
    requires Inv(fs) && Step(fs, op, fs')
    ensures Inv(fs') && |fs'.inodes| == |fs.inodes| && Files(fs') == Apply(Files(fs), op)
    ensures forall j :: 0 <= j < |fs.inodes| ==> SameLinks(fs, fs', j)
  {
    var i := op.i;
    match op
    case Truncate(_) =>
      TruncEmpties(fs, i);
      OthersSame(fs, fs', i);
      assert Files(fs') == Files(fs)[i := []];
    case Write(_, src, off) =>
      WriteiSplices(fs, i, src, off);
      if Writei(fs, i, src, off).Wrote? {
        SizeKept(fs, i, src, off);
        OthersSame(fs, fs', i);
        assert Files(fs') == Files(fs)[i := Splice(File(fs, i), off, src)];
      }
  }

  lemma SizeKept(fs: Fs, i: int, src: seq<int>, off: int)
    requires Inv(fs) && HasInode(fs, i) && Bytes(src) && 0 <= off < TWO32 && |src| < TWO32
    requires var w := Writei(fs, i, src, off); w.Wrote? && forall j :: j != i ==> SameInode(fs, w.fs, j)
    ensures |Writei(fs, i, src, off).fs.inodes| == |fs.inodes|
  {
    assert SameInode(fs, Writei(fs, i, src, off).fs, i + 1);
  }

  lemma OthersSame(fs: Fs, fs': Fs, i: int)
    requires Inv(fs) && Inv(fs') && |fs'.inodes| == |fs.inodes|
    requires forall j :: j != i ==> SameInode(fs, fs', j)
    ensures forall j :: 0 <= j < |fs.inodes| && j != i ==> Files(fs')[j] == Files(fs)[j] && SameLinks(fs, fs', j)
  {
    forall j | 0 <= j < |fs.inodes| && j != i ensures Files(fs')[j] == Files(fs)[j] && SameLinks(fs, fs', j) {
      assert SameInode(fs, fs', j) && InodeAt(fs, j) && InodeAt(fs', j) && InodeOk(fs, j);
      assert forall x :: 0 <= x < |File(fs, j)| ==> File(fs', j)[x] == File(fs, j)[x];
    }
  }

  lemma RunRest(fs: Fs, ops: seq<Op>, states: seq<Fs>)
    requires Run(fs, ops, states) && ops != []
    ensures Step(fs, ops[0], states[1]) && Run(states[1], ops[1..], states[1..])
  {
    hide Step;
    assert Step(states[0], ops[0], states[0 + 1]);
    forall x | 0 <= x < |ops[1..]| ensures Step(states[1..][x], ops[1..][x], states[1..][x + 1]) {
      assert Step(states[1 + x], ops[1 + x], states[1 + x + 1]);
    }
  }

  /** Over every run that does not fill the disk: ownership, no holes and disk copies hold throughout,
      the files are what the operations make of plain byte sequences, and every inode keeps its type and
      link count. */
  lemma {:induction false} RunRefines(fs: Fs, ops: seq<Op>, states: seq<Fs>)
    requires Inv(fs) && Run(fs, ops, states)
    ensures forall x :: 0 <= x <= |ops| ==> Inv(states[x])
    ensures forall x :: 0 <= x < |ops| ==> Permitted(|fs.inodes|, ops[x])
    ensures Files(states[|ops|]) == ApplyAll(Files(fs), ops)
    ensures forall j :: 0 <= j < |fs.inodes| ==> SameLinks(fs, states[|ops|], j)
    decreases |ops|
  {
    hide Inv, Step, Apply, Permitted;
    if ops != [] {
      var fs1 := states[1];
      RunRest(fs, ops, states);
      StepRefines(fs, ops[0], fs1);
      StepPermitted(fs, ops[0], fs1);
      RunRefines(fs1, ops[1..], states[1..]);
      var last := states[|ops|];
      assert states[1..][|ops[1..]|] == last;
      forall j | 0 <= j < |fs.inodes| ensures SameLinks(fs, last, j) {
        assert SameLinks(fs, fs1, j) && SameLinks(fs1, last, j);
      }
      forall x | 0 <= x <= |ops| ensures Inv(states[x]) {
        if x > 0 { assert states[x] == states[1..][x - 1]; }
      }
      forall x | 0 <= x < |ops| ensures Permitted(|fs.inodes|, ops[x]) {
        if x > 0 { assert ops[x] == ops[1..][x - 1]; }
      }
    }
  }

  lemma StepPermitted(fs: Fs, op: Op, fs': Fs)
    requires Step(fs, op, fs')
    ensures Permitted(|fs.inodes|, op)
  {
  }
}
