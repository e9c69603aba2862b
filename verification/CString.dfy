/** Reading NUL-terminated strings out of guest memory, chunk by chunk. */
module CString {
  import opened Types

  const CHUNK: nat := 4096

  /** The first NUL at or after addr is n bytes further on, inside memory. */
  predicate EndsAfter(mem: seq<byte>, addr: int, n: nat) {
    && 0 <= addr && addr + n < |mem|
    && mem[addr + n] == 0
    && forall k :: addr <= k < addr + n ==> mem[k] != 0
  }

  /** bytearray.find(0): the position of the first NUL, or |chunk| when there is none. */
  method FindNul(chunk: seq<byte>) returns (n: nat)
    ensures n <= |chunk| && (n < |chunk| ==> chunk[n] == 0)
    ensures forall k :: 0 <= k < n ==> chunk[k] != 0
  {
    n := 0;
    while n < |chunk| && chunk[n] != 0
      invariant n <= |chunk|
      invariant forall k :: 0 <= k < n ==> chunk[k] != 0
    {
      n := n + 1;
    }
  }

  function Min(a: int, b: int): int { if a < b then a else b }

  /** Returns exactly the bytes before the first NUL when it lies in memory and below the cap; fails otherwise. */
  method ReadCString(mem: seq<byte>, addr: int, cap: int) returns (r: Option<seq<byte>>)
    ensures r.Some? <==> exists n: nat :: EndsAfter(mem, addr, n) && n < cap
    ensures r.Some? ==> EndsAfter(mem, addr, |r.value|) && r.value == mem[addr .. addr + |r.value|]
  {
    if addr < 0 || addr >= |mem| {
      return None;
    }
    var out: seq<byte> := [];
    var pos := addr;
    while true
      invariant addr <= pos <= |mem| && out == mem[addr .. pos]
      invariant forall k :: addr <= k < pos ==> mem[k] != 0
      decreases |mem| - pos
    {
      var remaining := cap - |out|;
      if remaining <= 0 {
        break;
      }
      var end := Min(pos + CHUNK, Min(pos + remaining, |mem|));
      if end <= pos {
        break;
      }
      var chunk := mem[pos .. end];
      var nul := FindNul(chunk);
      if nul < |chunk| {
        assert forall k :: pos <= k < pos + nul ==> mem[k] == chunk[k - pos];
        assert EndsAfter(mem, addr, pos + nul - addr);
        assert out + chunk[..nul] == mem[addr .. pos + nul];
        return Some(out + chunk[..nul]);
      }
      assert forall k :: pos <= k < end ==> mem[k] == chunk[k - pos];
      assert out + chunk == mem[addr .. end];
      out := out + chunk;
      pos := end;
    }
    r := None;
  }

  /** The size-checked JSON read: a string of n bytes is parsed iff n < cap and n <= limit. */
  method ReadJsonCString(mem: seq<byte>, addr: int, cap: int, limit: int, wellFormed: seq<byte> -> bool)
    returns (r: Option<seq<byte>>)
    ensures r.Some? <==> exists n: nat :: EndsAfter(mem, addr, n) && n < cap && n <= limit
                                          && wellFormed(mem[addr .. addr + n])
    ensures r.Some? ==> EndsAfter(mem, addr, |r.value|) && r.value == mem[addr .. addr + |r.value|]
    ensures r.Some? ==> |r.value| < cap && |r.value| <= limit && wellFormed(r.value)
  {
    var raw := ReadCString(mem, addr, cap);
    if raw.None? {
      return None;
    }
    forall n: nat | EndsAfter(mem, addr, n) ensures n == |raw.value| {
      EndIsUnique(mem, addr, n, |raw.value|);
    }
    if |raw.value| > limit || !wellFormed(raw.value) {
      return None;
    }
    r := raw;
  }

  lemma EndIsUnique(mem: seq<byte>, addr: int, m: nat, n: nat)
    requires EndsAfter(mem, addr, m) && EndsAfter(mem, addr, n)
    ensures m == n
  {
  }
}
