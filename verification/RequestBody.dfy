/** src/http/request.c and the upload part of src/http/http.c: the growing buffer, and the
    handler that the server library calls once for each piece of an upload. */
module RequestBody {
  const MAX_BODY_SIZE: nat := 0x10_0000
  const FIRST_CAPACITY: nat := 4096
  const SIZE_MODULUS: nat := 0x1_0000_0000_0000_0000

  /** Subtraction of `size_t` values. */
  function SizeMinus(a: nat, b: nat): nat {
    (a - b) % SIZE_MODULUS
  }

  /** `capacity *= 2U` */
  function Doubled(n: nat): (r: nat)
    ensures n <= MAX_BODY_SIZE ==> r == 2 * n
  {
    (n * 2) % SIZE_MODULUS
  }

  /** The smallest FIRST_CAPACITY * 2^k that is at least `required`, starting from `capacity`. */
  function Grown(capacity: nat, required: nat): (r: nat)
    requires capacity > 0
    ensures r >= required && r >= capacity
    decreases if capacity >= required then 0 else required - capacity
  {
    if capacity >= required then capacity else Grown(2 * capacity, required)
  }

  /** The capacity of a buffer that holds `length` bytes and a NUL: no history in it. */
  function CapacityFor(length: nat): nat {
    Grown(FIRST_CAPACITY, length + 1)
  }

  /** Growing from the capacity for a shorter text arrives where growing from scratch does. */
  lemma {:induction false} GrownFromGrown(capacity: nat, required: nat, more: nat)
    requires capacity > 0 && required <= more
    ensures Grown(Grown(capacity, required), more) == Grown(capacity, more)
    decreases if capacity >= required then 0 else required - capacity
  {
    if capacity < required {
      GrownFromGrown(2 * capacity, required, more);
    }
  }

  /** A buffer within the limit takes at most twice the limit, and half its capacity is too small. */
  lemma CapacityBounds(length: nat)
    requires length <= MAX_BODY_SIZE
    ensures length < CapacityFor(length) <= 2 * MAX_BODY_SIZE
    ensures if length < 4096 then CapacityFor(length) == 4096 else CapacityFor(length) < 2 * (length + 1)
  {
    GrownFromGrown(FIRST_CAPACITY, length + 1, 2 * MAX_BODY_SIZE);
    assert Grown(0x8_0000, 0x20_0000) == 0x20_0000;
    assert Grown(0x2_0000, 0x20_0000) == 0x20_0000;
    assert Grown(0x8000, 0x20_0000) == 0x20_0000;
    assert Grown(0x2000, 0x20_0000) == 0x20_0000;
    GrownIsLeast(FIRST_CAPACITY, length + 1);
  }

  lemma {:induction false} GrownIsLeast(capacity: nat, required: nat)
    requires capacity > 0
    ensures Grown(capacity, required) > capacity ==> Grown(capacity, required) < 2 * required
    decreases if capacity >= required then 0 else required - capacity
  {
    if capacity < required {
      GrownIsLeast(2 * capacity, required);
    }
  }

  /** `capacity` doubled k times. */
  function Doublings(capacity: nat, k: nat): nat
    decreases k
  {
    if k == 0 then capacity else Doublings(2 * capacity, k - 1)
  }

  /** A grown capacity is the least doubling of the old one that suffices. */
  lemma {:induction false} GrownIsLeastDoubling(capacity: nat, required: nat) returns (k: nat)
    requires capacity > 0
    ensures Grown(capacity, required) == Doublings(capacity, k) >= required
    ensures k > 0 ==> Doublings(capacity, k - 1) < required
    decreases if capacity >= required then 0 else required - capacity
  {
    if capacity >= required {
      k := 0;
    } else {
      var j := GrownIsLeastDoubling(2 * capacity, required);
      k := j + 1;
    }
  }

  class Body {
    var data: array?<char>
    var length: nat
    var capacity: nat
    var responseQueued: bool
    ghost var recopied: nat  // bytes that growth has copied so far

    /** The bound, the NUL behind the text, and a capacity that depends on the length alone. */
    ghost predicate Valid()
      reads this, data
    {
      ReadyFor(length) && (data != null ==> data[length] == '\0')
    }

    /** The block is the one for a text of `target` bytes. */
    ghost predicate ReadyFor(target: nat)
      reads this, data
    {
      && length <= target <= MAX_BODY_SIZE
      && (data == null ==> length == 0 && capacity == 0 && recopied == 0)
      && (data != null ==>
            && data.Length == capacity == CapacityFor(target)
            && target < capacity <= 2 * MAX_BODY_SIZE
            && recopied + FIRST_CAPACITY <= capacity)
    }

    ghost function Contents(): (s: string)
      requires length <= if data == null then 0 else data.Length
      reads this, data
      ensures |s| == length
    {
      if data == null then "" else data[..length]
    }

    /** `calloc` */
    constructor ()
      ensures Valid() && fresh(this) && data == null && Contents() == "" && !responseQueued
    {
      data, length, capacity, responseQueued, recopied := null, 0, 0, false, 0;
    }

    /** `granted` says whether `realloc` succeeds. A refusal, for size or memory, changes nothing. */
    method Append(chunk: string, granted: bool) returns (ok: bool)
      requires Valid()
      requires |chunk| < SIZE_MODULUS
      modifies this`data, this`length, this`capacity, this`recopied, data
      ensures Valid()
      ensures ok <==> old(length) + |chunk| <= MAX_BODY_SIZE &&
                      (granted || old(length) + |chunk| + 1 <= old(capacity))
      ensures Contents() == if ok then old(Contents()) + chunk else old(Contents())
      ensures data == old(data) || fresh(data)
      ensures ok ==> data != null
      ensures !ok ==> capacity == old(capacity) && data == old(data)
    {
      if Refuses(length, |chunk|) {
        return false;
      }
      var required := (length + |chunk| + 1) % SIZE_MODULUS;
      if required > capacity {
        ok := Grow(required, granted);
        if !ok {
          return;
        }
      } else {
        GrownFromGrown(FIRST_CAPACITY, length + 1, required);
      }
      assert ReadyFor(length + |chunk|);
      Write(chunk);
      ok := true;
    }

    /** The growth loop and the reallocation. */
    method Grow(required: nat, granted: bool) returns (ok: bool)
      requires Valid()
      requires capacity < required <= MAX_BODY_SIZE + 1
      modifies this`data, this`capacity, this`recopied
      ensures ok == granted
      ensures ok ==> data != null && fresh(data) && ReadyFor(required - 1)
      ensures !ok ==> data == old(data) && capacity == old(capacity) && Valid()
      ensures length <= (if data == null then 0 else data.Length) && Contents() == old(Contents())
    {
      ghost var target := CapacityFor(required - 1);
      var grown := if capacity == 0 then FIRST_CAPACITY else capacity;
      CapacityBounds(required - 1);
      assert Grown(grown, required) == target by {
        GrownFromGrown(FIRST_CAPACITY, length + 1, required);
      }
      while grown < required
        invariant FIRST_CAPACITY <= grown
        invariant Grown(grown, required) == target
        invariant capacity == 0 || grown == capacity || grown >= 2 * capacity
        decreases required - grown
      {
        grown := Doubled(grown);
      }
      if !granted {
        return false;
      }
      var resized := Resize(data, capacity, length, grown);
      recopied := recopied + capacity;
      data := resized;
      capacity := grown;
      return true;
    }

    /** The bytes go behind the old ones, and a NUL behind them. */
    method Write(chunk: string)
      requires data != null && ReadyFor(length + |chunk|)
      modifies this`length, data
      ensures Valid() && Contents() == old(Contents()) + chunk
    {
      ghost var before := data[..length];
      Copy(data, length, chunk);
      assert data[..length + |chunk|] == before + chunk by {
        assert data[..length + |chunk|] == data[..length] + data[length..length + |chunk|];
      }
      length := length + |chunk|;
      data[length] := '\0';
    }
  }

  /** `realloc`: a larger block that starts with the old bytes. */
  method Resize(data: array?<char>, capacity: nat, length: nat, grown: nat) returns (resized: array<char>)
    requires data == null ==> length == 0
    requires data != null ==> length <= capacity == data.Length
    requires capacity <= grown && length <= grown
    ensures fresh(resized) && resized.Length == grown
    ensures data != null ==> resized[..length] == data[..length]
  {
    resized := new char[grown](i => '\0');
    if data != null {
      forall i | 0 <= i < capacity {
        resized[i] := data[i];
      }
    }
  }

  /** `memcpy` to an offset. */
  method Copy(target: array<char>, offset: nat, chunk: string)
    requires offset + |chunk| <= target.Length
    modifies target
    ensures target[..offset] == old(target[..offset])
    ensures target[offset..offset + |chunk|] == chunk
    ensures target[offset + |chunk|..] == old(target[offset + |chunk|..])
  {
    forall i | 0 <= i < |chunk| {
      target[offset + i] := chunk[i];
    }
  }

  /** The guard of `Append`. */
  predicate Refuses(length: nat, size: nat) {
    size > SizeMinus(MAX_BODY_SIZE, length)
  }

  /** The unsigned guard refuses precisely the bodies that would exceed the limit if and only if
      the length has kept its bound: beyond it the subtraction wraps around. */
  lemma GuardIsExactUnderTheBound(length: nat)
    requires length < SIZE_MODULUS
    ensures (forall size: nat :: size < SIZE_MODULUS ==> (Refuses(length, size) <==> length + size > MAX_BODY_SIZE))
            <==> length <= MAX_BODY_SIZE
  {
    assert !Refuses(length, 0);
    assert 0 <= length <= MAX_BODY_SIZE ==> SizeMinus(MAX_BODY_SIZE, length) == MAX_BODY_SIZE - length;
  }
}
