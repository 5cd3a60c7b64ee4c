/** Values shared by the whole model: options, results and the protobuf records
    that the client receives from the master and from the workers. */
module Types {

  datatype Option<+T> = None | Some(value: T) {
    function GetOr(default: T): T {
      match this
      case Some(v) => v
      case None => default
    }
  }

  /** The client's errors, as far as callers can tell them apart: `NotFound` is the only
      kind the metadata cache reacts to; every other kind is passed through untouched. */
  datatype Error = NotFound(path: string) | Other(code: nat) {
    predicate IsNotFound() {
      NotFound?
    }
  }

  datatype Result<+T> = Ok(value: T) | Err(error: Error)

  datatype WorkerNetAddress = WorkerNetAddress(host: Option<string>, rpcPort: Option<int>)

  datatype WorkerInfo = WorkerInfo(id: Option<int>, address: Option<WorkerNetAddress>)

  datatype BlockLocation = BlockLocation(workerId: Option<int>, workerAddress: Option<WorkerNetAddress>)

  datatype BlockInfo = BlockInfo(blockId: Option<int>, length: Option<int>, locations: seq<BlockLocation>)

  datatype FileBlockInfo = FileBlockInfo(blockInfo: Option<BlockInfo>, offset: Option<int>)

  datatype FileInfo = FileInfo(
    length: Option<int>,
    completed: Option<bool>,
    blockSizeBytes: Option<int>,
    blockIds: seq<int>,
    fileBlockInfos: seq<FileBlockInfo>,
    inGoosefsPercentage: Option<int>)

  const I64_MAX: int := 0x7fff_ffff_ffff_ffff
  const U64_SIZE: int := 0x1_0000_0000_0000_0000

  function Min(a: int, b: int): int {
    if a <= b then a else b
  }

  function Max(a: int, b: int): int {
    if a <= b then b else a
  }

  /** Some member of a set: hash maps and sets are walked in an arbitrary order. */
  method Any<T>(s: set<T>) returns (x: T)
    requires s != {}
    ensures x in s
  {
    x :| x in s;
  }
}

/** Multiplication and division by a variable. */
module Arithmetic {

  lemma MulMonotone(d: nat, x: nat, y: nat)
    requires x <= y
    ensures d * x <= d * y
  {
  }

  /** Division is adjoint to multiplication. */
  lemma DivAtLeast(a: nat, d: nat, n: nat)
    requires d > 0
    ensures a / d >= n <==> a >= d * n
  {
    assert a == d * (a / d) + a % d;
    if a / d >= n {
      MulMonotone(d, n, a / d);
    } else {
      MulMonotone(d, a / d + 1, n);
    }
  }

  lemma DivMonotone(a: nat, b: nat, d: nat)
    requires d > 0 && a <= b
    ensures 0 <= a / d <= b / d
  {
    DivAtLeast(a, d, a / d);
    DivAtLeast(b, d, a / d);
  }

  /** Quotient and remainder are unique. */
  lemma DivModUnique(x: nat, d: nat, q: nat, r: nat)
    requires r < d && x == d * q + r
    ensures x / d == q && x % d == r
  {
    DivAtLeast(x, d, q);
    DivAtLeast(x, d, q + 1);
    assert d * (q + 1) == d * q + d;
    assert x == d * (x / d) + x % d;
  }
}
