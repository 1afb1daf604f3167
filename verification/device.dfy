/** `PancakeIO`: the device as a map from block index to block, and when a transfer succeeds. */
module Devices {
  import opened ErrorCodes
  import opened SealedBlock

  type Disk = map<nat, seq<bv8>>

  /** What becomes of a write: all of it arrives, or it fails after some of its blocks have arrived. */
  datatype Completion = Complete | Failed(landed: nat)

  predicate IsBlockAlign(n: nat) {
    n % BLOCK_SIZE == 0
  }

  /** The first `n` blocks of `buf` written from block `first` on. The device does not grow. */
  function Put(disk: Disk, first: nat, buf: seq<bv8>, n: nat): (r: Disk)
    requires n * BLOCK_SIZE <= |buf|
    ensures r.Keys == disk.Keys
  {
    map k | k in disk ::
      if first <= k < first + n then buf[(k - first) * BLOCK_SIZE..(k - first + 1) * BLOCK_SIZE] else disk[k]
  }

  predicate OnDevice(disk: Disk, first: nat, n: nat) {
    forall k | first <= k < first + n :: k in disk
  }

  function WriteResult(disk: Disk, offset: nat, buf: seq<bv8>, done: Completion): (r: (Disk, ErrorCode))
    ensures r.0.Keys == disk.Keys
  {
    if !IsBlockAlign(offset) || !IsBlockAlign(|buf|) then (disk, NotBlockAligned)
    else
      var first, n := offset / BLOCK_SIZE, |buf| / BLOCK_SIZE;
      if done.Complete? && OnDevice(disk, first, n) then (Put(disk, first, buf, n), Ok)
      else if done.Failed? && done.landed <= n then (Put(disk, first, buf, done.landed), IoWriteAtFailed)
      else (disk, IoWriteAtFailed)
  }

  function Gather(disk: Disk, first: nat, n: nat): (buf: seq<bv8>)
    requires OnDevice(disk, first, n)
    decreases n
  {
    if n == 0 then [] else Gather(disk, first, n - 1) + disk[first + n - 1]
  }

  /** What a read appends, and its result; `ok` is whether the transfer works. */
  function ReadResult(disk: Disk, offset: nat, length: nat, ok: bool): (seq<bv8>, ErrorCode) {
    if !IsBlockAlign(offset) || !IsBlockAlign(length) then ([], NotBlockAligned)
    else if ok && OnDevice(disk, offset / BLOCK_SIZE, length / BLOCK_SIZE) then
      (Gather(disk, offset / BLOCK_SIZE, length / BLOCK_SIZE), ErrorCode.Ok)
    else ([], IoReadAtFailed)
  }

  lemma PutBlock(disk: Disk, first: nat, buf: seq<bv8>, n: nat, j: nat)
    requires j < n && n * BLOCK_SIZE <= |buf| && OnDevice(disk, first, n)
    ensures first + j in Put(disk, first, buf, n)
    ensures Put(disk, first, buf, n)[first + j] == buf[j * BLOCK_SIZE..(j + 1) * BLOCK_SIZE]
  {
  }

  lemma SliceAgain(buf: seq<bv8>, i: nat, j: nat)
    requires i <= j <= |buf|
    ensures buf[..i] + buf[i..j] == buf[..j]
  {
  }

  lemma {:induction false} GatherPut(disk: Disk, first: nat, buf: seq<bv8>, n: nat, m: nat)
    requires m <= n && n * BLOCK_SIZE <= |buf| && OnDevice(disk, first, n)
    ensures Gather(Put(disk, first, buf, n), first, m) == buf[..m * BLOCK_SIZE]
    decreases m
  {
    if m != 0 {
      hide Put;
      GatherPut(disk, first, buf, n, m - 1);
      PutBlock(disk, first, buf, n, m - 1);
      SliceAgain(buf, (m - 1) * BLOCK_SIZE, m * BLOCK_SIZE);
    }
  }

  /** The blocks that arrive of `n` written ones. */
  function Arrived(disk: Disk, first: nat, n: nat, done: Completion): nat {
    match done
    case Complete => if OnDevice(disk, first, n) then n else 0
    case Failed(landed) => if landed <= n then landed else 0
  }

  /** The code of a write and each block of the device after it. */
  lemma WriteLeaves(disk: Disk, offset: nat, buf: seq<bv8>, done: Completion)
    ensures var (after, err) := WriteResult(disk, offset, buf, done);
      && (err == NotBlockAligned <==> offset % 4096 != 0 || |buf| % 4096 != 0)
      && (err == NotBlockAligned ==> after == disk)
      && (err == Ok <==> err != NotBlockAligned && done.Complete? && OnDevice(disk, offset / 4096, |buf| / 4096))
      && (err == NotBlockAligned || err == Ok || err == IoWriteAtFailed)
      && (err != NotBlockAligned ==> forall k | k in disk ::
            var j := k - offset / 4096;
            if 0 <= j < Arrived(disk, offset / 4096, |buf| / 4096, done) then
              4096 * (j + 1) <= |buf| && after[k] == buf[4096 * j..4096 * (j + 1)]
            else after[k] == disk[k])
  {
  }

  lemma {:induction false} GatheredBlock(disk: Disk, first: nat, n: nat, j: nat)
    requires OnDevice(disk, first, n) && j < n && forall k | k in disk :: |disk[k]| == BLOCK_SIZE
    ensures |Gather(disk, first, n)| == n * BLOCK_SIZE
    ensures Gather(disk, first, n)[j * BLOCK_SIZE..(j + 1) * BLOCK_SIZE] == disk[first + j]
    decreases n
  {
    if j < n - 1 {
      GatheredBlock(disk, first, n - 1, j);
    } else {
      GatheredSize(disk, first, n - 1);
    }
  }

  lemma {:induction false} GatheredSize(disk: Disk, first: nat, n: nat)
    requires OnDevice(disk, first, n) && forall k | k in disk :: |disk[k]| == BLOCK_SIZE
    ensures |Gather(disk, first, n)| == n * BLOCK_SIZE
    decreases n
  {
    if n != 0 {
      GatheredSize(disk, first, n - 1);
    }
  }

  /** The code of a read and each block of what it appends. */
  lemma ReadGives(disk: Disk, offset: nat, length: nat, ok: bool, j: nat)
    requires forall k | k in disk :: |disk[k]| == BLOCK_SIZE
    ensures var (data, err) := ReadResult(disk, offset, length, ok);
      && (err == NotBlockAligned <==> offset % 4096 != 0 || length % 4096 != 0)
      && (err == Ok <==> err != NotBlockAligned && ok && OnDevice(disk, offset / 4096, length / 4096))
      && (err == NotBlockAligned || err == Ok || err == IoReadAtFailed)
      && |data| == (if err == Ok then length else 0)
      && (err == Ok && j < length / 4096 ==>
            4096 * (j + 1) <= |data| && data[4096 * j..4096 * (j + 1)] == disk[offset / 4096 + j])
  {
    hide Gather;
    var first, n := offset / BLOCK_SIZE, length / BLOCK_SIZE;
    if ReadResult(disk, offset, length, ok).1 == Ok {
      GatheredSize(disk, first, n);
      if j < n {
        GatheredBlock(disk, first, n, j);
      }
    }
  }

  /** After a successful write the same range reads back as what was written, and no other block has changed. */
  lemma WriteThenRead(disk: Disk, offset: nat, buf: seq<bv8>)
    requires WriteResult(disk, offset, buf, Complete).1 == Ok
    ensures var after := WriteResult(disk, offset, buf, Complete).0;
      && ReadResult(after, offset, |buf|, true) == (buf, Ok)
      && forall k | k in disk && !(offset <= k * BLOCK_SIZE < offset + |buf|) :: after[k] == disk[k]
  {
    var first, n := offset / BLOCK_SIZE, |buf| / BLOCK_SIZE;
    GatherPut(disk, first, buf, n, n);
    assert buf[..n * BLOCK_SIZE] == buf;
  }

  class PancakeIO {
    var disk: Disk

    constructor (disk: Disk)
      ensures this.disk == disk
    {
      this.disk := disk;
    }

    method ReadAt(offset: nat, length: nat, buffer: seq<bv8>, ok: bool) returns (buffer': seq<bv8>, err: ErrorCode)
      ensures var r := ReadResult(disk, offset, length, ok); buffer' == buffer + r.0 && err == r.1
    {
      buffer' := buffer;
      if !IsBlockAlign(offset) || !IsBlockAlign(length) {
        return buffer', NotBlockAligned;
      }
      var first, n := offset / BLOCK_SIZE, length / BLOCK_SIZE;
      if !ok || !OnDevice(disk, first, n) {
        return buffer', IoReadAtFailed;
      }
      var i := 0;
      while i < n
        invariant i <= n && OnDevice(disk, first, i)
        invariant buffer' == buffer + Gather(disk, first, i)
      {
        buffer' := buffer' + disk[first + i];
        i := i + 1;
      }
      return buffer', ErrorCode.Ok;
    }

    method WriteAt(offset: nat, buf: seq<bv8>, done: Completion) returns (err: ErrorCode)
      modifies this
      ensures (disk, err) == WriteResult(old(disk), offset, buf, done)
    {
      if !IsBlockAlign(offset) || !IsBlockAlign(|buf|) {
        return NotBlockAligned;
      }
      var first, n := offset / BLOCK_SIZE, |buf| / BLOCK_SIZE;
      match done
      case Complete =>
        if OnDevice(disk, first, n) {
          disk := Put(disk, first, buf, n);
          return Ok;
        }
        return IoWriteAtFailed;
      case Failed(landed) =>
        if landed <= n {
          disk := Put(disk, first, buf, landed);
        }
        return IoWriteAtFailed;
    }
  }
}
