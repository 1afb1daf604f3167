/** The bounded search for a free extent that starts where the last one ended. */
module NextFit {
  datatype ScanResult = Found(index: nat, cursor: nat) | NotFound(cursor: nat) | OutOfBounds(index: nat)

  /** The loop of `AddExtent`: at most `left` looks, the cursor reduced modulo `modulus` before each. */
  function Scan(bits: seq<bool>, cursor: nat, modulus: nat, left: nat): (r: ScanResult)
    requires modulus > 0 || left == 0
    ensures r.Found? ==> r.index < |bits| && !bits[r.index] && r.index < modulus && r.cursor == r.index + 1
    decreases left
  {
    if left == 0 then NotFound(cursor)
    else
      var c := cursor % modulus;
      if c >= |bits| then OutOfBounds(c)
      else if !bits[c] then Found(c, c + 1)
      else Scan(bits, c + 1, modulus, left - 1)
  }

  /** The slot `k` places after `from`, going round. */
  function Around(from: nat, k: nat, modulus: nat): nat
    requires modulus > 0
  {
    (from + k) % modulus
  }

  lemma AroundNext(from: nat, k: nat, modulus: nat)
    requires modulus > 0
    ensures Around(from % modulus + 1, k, modulus) == Around(from, k + 1, modulus)
    ensures Around(from, 0, modulus) == from % modulus
  {
    var q := from / modulus;
    assert from == q * modulus + from % modulus;
    Period(from % modulus + 1 + k, q, modulus);
  }

  lemma Period(n: nat, q: nat, modulus: nat)
    requires modulus > 0
    ensures (n + q * modulus) % modulus == n % modulus
  {
    if q != 0 {
      Period(n, q - 1, modulus);
      assert n + q * modulus == (n + (q - 1) * modulus) + modulus;
      OnePeriod(n + (q - 1) * modulus, modulus);
    }
  }

  lemma OnePeriod(n: nat, modulus: nat)
    requires modulus > 0
    ensures (n + modulus) % modulus == n % modulus
  {
    Remainder(n + modulus, n / modulus + 1, n % modulus, modulus);
  }

  lemma Remainder(n: nat, q: nat, r: nat, modulus: nat)
    requires r < modulus && n == q * modulus + r
    ensures n % modulus == r
  {
    var q', r' := n / modulus, n % modulus;
    assert q' * modulus + r' == q * modulus + r;
    if q < q' {
      Multiple(q, q', modulus);
    } else if q' < q {
      Multiple(q', q, modulus);
    }
  }

  lemma Multiple(a: nat, b: nat, modulus: nat)
    requires a < b
    ensures a * modulus + modulus <= b * modulus
  {
    assert b * modulus == a * modulus + modulus + (b - a - 1) * modulus;
  }

  /**
   With no more slots than bits the scan stays inside the bitmap, and finds the first free slot
   going round from the cursor; when it finds none, the slots it looked at are all used.
   */
  lemma {:induction false} ScanFindsFirst(bits: seq<bool>, cursor: nat, modulus: nat, left: nat) returns (k: nat)
    requires 0 < modulus <= |bits|
    ensures !Scan(bits, cursor, modulus, left).OutOfBounds?
    ensures k <= left
    ensures forall j | 0 <= j < k :: Around(cursor, j, modulus) < |bits| && bits[Around(cursor, j, modulus)]
    ensures Scan(bits, cursor, modulus, left).Found? <==> k < left
    ensures k < left ==> Scan(bits, cursor, modulus, left).index == Around(cursor, k, modulus)
    decreases left
  {
    k := 0;
    if left != 0 {
      var c := cursor % modulus;
      AroundNext(cursor, 0, modulus);
      if bits[c] {
        var rest := ScanFindsFirst(bits, c + 1, modulus, left - 1);
        k := rest + 1;
        forall j | 0 <= j < k ensures Around(cursor, j, modulus) < |bits| && bits[Around(cursor, j, modulus)] {
          if j != 0 {
            AroundNext(cursor, j - 1, modulus);
          }
        }
        AroundNext(cursor, rest, modulus);
      }
    }
  }

  /** Every slot is some number of places, fewer than the modulus, after the cursor. */
  lemma PlacesAfter(cursor: nat, i: nat, modulus: nat) returns (k: nat)
    requires i < modulus
    ensures k < modulus && Around(cursor, k, modulus) == i
  {
    var c, q := cursor % modulus, cursor / modulus;
    if c <= i {
      k := i - c;
      assert cursor + k == q * modulus + i;
      Remainder(cursor + k, q, i, modulus);
    } else {
      k := i + modulus - c;
      assert cursor + k == (q + 1) * modulus + i;
      Remainder(cursor + k, q + 1, i, modulus);
    }
  }

  /** With as many looks as bits, the scan finds a slot exactly when one below the modulus is free. */
  lemma ScanComplete(bits: seq<bool>, cursor: nat, modulus: nat)
    requires 0 < modulus <= |bits|
    ensures Scan(bits, cursor, modulus, |bits|).Found? <==> exists i :: 0 <= i < modulus && !bits[i]
    ensures !Scan(bits, cursor, modulus, |bits|).OutOfBounds?
  {
    var k := ScanFindsFirst(bits, cursor, modulus, |bits|);
    if k == |bits| {
      forall i | 0 <= i < modulus ensures bits[i] {
        var j := PlacesAfter(cursor, i, modulus);
      }
    }
  }

  /**
   The scan never leaves the bitmap, whatever the cursor and the bits, exactly when the modulus does
   not exceed its size.
   */
  lemma ScanBounds(count: nat, modulus: nat)
    requires modulus > 0
    ensures (forall bits: seq<bool>, cursor: nat | |bits| == count ::
               !Scan(bits, cursor, modulus, count).OutOfBounds?) <==> modulus <= count || count == 0
  {
    if modulus <= count {
      forall bits: seq<bool>, cursor: nat | |bits| == count ensures !Scan(bits, cursor, modulus, count).OutOfBounds? {
        ScanComplete(bits, cursor, modulus);
      }
    } else if count != 0 {
      var bits := seq(count, i => true);
      ScanLeaves(bits, modulus);
    }
  }

  lemma ScanNothing(bits: seq<bool>, cursor: nat, modulus: nat)
    ensures Scan(bits, cursor, modulus, 0) == NotFound(cursor)
  {
  }

  /** The slot under the cursor is free. */
  lemma ScanHere(bits: seq<bool>, k: nat, modulus: nat, left: nat)
    requires k < |bits| && k < modulus && 0 < left && !bits[k]
    ensures Scan(bits, k, modulus, left) == Found(k, k + 1)
  {
    Remainder(k, 0, k, modulus);
  }

  /** A cursor that may reach past the bits does. */
  lemma ScanLeaves(bits: seq<bool>, modulus: nat)
    requires 0 < |bits| < modulus
    ensures Scan(bits, |bits|, modulus, |bits|).OutOfBounds?
  {
    Remainder(|bits|, 0, |bits|, modulus);
  }

  /** The slots that `n` adds in a row take. */
  function Picks(bits: seq<bool>, cursor: nat, modulus: nat, n: nat): seq<nat>
    requires modulus > 0
    decreases n
  {
    if n == 0 then []
    else
      match Scan(bits, cursor, modulus, |bits|)
      case Found(i, next) => [i] + Picks(bits[i := true], next, modulus, n - 1)
      case _ => []
  }

  /** The first free slot is less than a whole round away. */
  lemma ScanWithinRound(bits: seq<bool>, cursor: nat, modulus: nat) returns (k: nat)
    requires 0 < modulus <= |bits| && Scan(bits, cursor, modulus, |bits|).Found?
    ensures k < modulus && Scan(bits, cursor, modulus, |bits|).index == Around(cursor, k, modulus)
    ensures forall j | 0 <= j < k :: Around(cursor, j, modulus) < |bits| && bits[Around(cursor, j, modulus)]
  {
    k := ScanFindsFirst(bits, cursor, modulus, |bits|);
    if k >= modulus {
      var j := PlacesAfter(cursor, Around(cursor, k, modulus), modulus);
      assert false;
    }
  }

  lemma AroundAgain(from: nat, k: nat, modulus: nat)
    requires modulus > 0
    ensures Around(from, k + modulus, modulus) == Around(from, k, modulus)
  {
    OnePeriod(from + k, modulus);
  }

  lemma AroundFrom(cursor: nat, k: nat, j: nat, modulus: nat)
    requires modulus > 0
    ensures Around(Around(cursor, k, modulus) + 1, j, modulus) == Around(cursor, k + 1 + j, modulus)
  {
    AroundNext(cursor + k, j, modulus);
  }

  /**
   Adds in a row without a delete take slots that were free, in cyclic order and each once: their
   distances from where the cursor stood only grow, and stay below one round.
   */
  lemma {:induction false} PicksInOrder(bits: seq<bool>, cursor: nat, modulus: nat, n: nat) returns (places: seq<nat>)
    requires 0 < modulus <= |bits|
    ensures var p := Picks(bits, cursor, modulus, n);
      && |places| == |p|
      && (forall j | 0 <= j < |p| :: places[j] < modulus && p[j] == Around(cursor, places[j], modulus))
      && (forall j, k | 0 <= j < k < |p| :: places[j] < places[k])
      && (forall j | 0 <= j < |p| :: p[j] < modulus && !bits[p[j]])
    decreases n
  {
    places := [];
    var r := Scan(bits, cursor, modulus, |bits|);
    if n != 0 && r.Found? {
      var k := ScanWithinRound(bits, cursor, modulus);
      var bits' := bits[r.index := true];
      var rest := PicksInOrder(bits', r.cursor, modulus, n - 1);
      var later := Picks(bits', r.cursor, modulus, n - 1);
      places := [k] + seq(|rest|, j requires 0 <= j < |rest| => k + 1 + rest[j]);
      forall j | 0 <= j < |later|
        ensures k + 1 + rest[j] < modulus && later[j] == Around(cursor, k + 1 + rest[j], modulus)
        ensures !bits[later[j]]
      {
        AroundFrom(cursor, k, rest[j], modulus);
        if k + 1 + rest[j] >= modulus {
          AroundAgain(cursor, k + 1 + rest[j] - modulus, modulus);
          assert false;
        }
      }
      assert Picks(bits, cursor, modulus, n) == [r.index] + later;
    }
  }
}
