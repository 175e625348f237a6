/** The file system as a map from path to bytes, with the states a crash can leave behind.
    A write or append may be cut after any number of bytes; a rename or removal is atomic. */
module Disks {
  import opened Bytes

  type Files = map<Str, seq<Byte>>

  datatype DiskOp =
    | Write(path: Str, bytes: seq<Byte>)   // create or truncate, then write
    | Append(path: Str, bytes: seq<Byte>)  // open for appending, then write
    | Rename(from: Str, to: Str)
    | Remove(path: Str)

  function Contents(d: Files, path: Str): seq<Byte> {
    if path in d then d[path] else []
  }

  function Apply(d: Files, op: DiskOp): Files {
    match op
    case Write(p, b) => d[p := b]
    case Append(p, b) => d[p := Contents(d, p) + b]
    case Rename(f, t) => if f in d then (d - {f})[t := d[f]] else d
    case Remove(p) => d - {p}
  }

  function ApplyAll(d: Files, ops: seq<DiskOp>): Files {
    if ops == [] then d else Apply(ApplyAll(d, ops[..|ops| - 1]), ops[|ops| - 1])
  }

  /** `d'` is what a crash during `op` can leave of `d`. */
  ghost predicate Torn(d: Files, op: DiskOp, d': Files) {
    || d' == d || d' == Apply(d, op)
    || (op.Write? && exists n :: 0 <= n <= |op.bytes| && d' == d[op.path := op.bytes[..n]])
    || (op.Append? && exists n :: 0 <= n <= |op.bytes| && d' == d[op.path := Contents(d, op.path) + op.bytes[..n]])
  }

  /** `d'` is what a crash anywhere in the run of `ops` from `d` can leave. */
  ghost predicate CrashState(d: Files, ops: seq<DiskOp>, d': Files) {
    if ops == [] then d' == d
    else
      var n := |ops| - 1;
      CrashState(d, ops[..n], d') || Torn(ApplyAll(d, ops[..n]), ops[n], d')
  }

  class Disk {
    var files: Files
    ghost var trace: seq<DiskOp>  // everything done to the disk so far

    constructor (files: Files)
      ensures this.files == files && trace == []
    {
      this.files := files;
      trace := [];
    }

    method Perform(op: DiskOp)
      modifies this
      ensures files == Apply(old(files), op) && trace == old(trace) + [op]
    {
      match op {
        case Write(p, b) => files := files[p := b];
        case Append(p, b) => files := files[p := Contents(files, p) + b];
        case Rename(f, t) =>
          if f in files {
            files := (files - {f})[t := files[f]];
          }
        case Remove(p) => files := files - {p};
      }
      trace := trace + [op];
    }
  }

  lemma OneMoreOp(d: Files, ops: seq<DiskOp>, op: DiskOp)
    ensures ApplyAll(d, ops + [op]) == Apply(ApplyAll(d, ops), op)
    ensures forall d' :: CrashState(d, ops + [op], d') <==> CrashState(d, ops, d') || Torn(ApplyAll(d, ops), op, d')
  {
    assert (ops + [op])[..|ops|] == ops;
  }

  lemma FirstOp(d: Files, op: DiskOp)
    ensures ApplyAll(d, [op]) == Apply(d, op)
    ensures forall d' :: CrashState(d, [op], d') <==> Torn(d, op, d')
  {
    OneMoreOp(d, [], op);
    assert [] + [op] == [op];
  }

  /** A crash in a run of operations is a crash in its first part or in its second. */
  lemma {:induction false} CrashSplit(d: Files, a: seq<DiskOp>, b: seq<DiskOp>, d': Files)
    ensures ApplyAll(d, a + b) == ApplyAll(ApplyAll(d, a), b)
    ensures CrashState(d, a + b, d') <==> CrashState(d, a, d') || CrashState(ApplyAll(d, a), b, d')
    decreases |b|
  {
    if b == [] {
      assert a + b == a;
      EndIsCrashState(d, a);
    } else {
      var n := |b| - 1;
      CrashSplit(d, a, b[..n], d');
      assert a + b == (a + b[..n]) + [b[n]] && b == b[..n] + [b[n]];
      OneMoreOp(d, a + b[..n], b[n]);
      OneMoreOp(ApplyAll(d, a), b[..n], b[n]);
    }
  }

  lemma {:induction false} EndIsCrashState(d: Files, ops: seq<DiskOp>)
    ensures CrashState(d, ops, ApplyAll(d, ops))
  {
  }
}
