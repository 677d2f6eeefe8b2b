// The NEAR/SAME address cache and the COPY address modes (RFC 3284, sections
// 5.1 to 5.3), with the sizes of the default code table.
module AddressCache {
  import opened Bytes
  import opened Integers

  const S_NEAR: nat := 4
  const S_SAME: nat := 3
  const SAME_SLOTS: nat := 768   // S_SAME * 256

  // Address modes: 0 is VCD_SELF, 1 is VCD_HERE, 2..5 are NEAR, 6..8 are SAME.
  const VCD_SELF: nat := 0
  const VCD_HERE: nat := 1
  const SAME_START: nat := 6     // 2 + S_NEAR
  const MODES: nat := 9

  // The cache contents as a value.
  datatype Cache = Cache(near: seq<nat>, same: seq<nat>, next: nat) {

    // A SAME slot holds the address last hashed to it, or its initial zero.
    ghost predicate Valid() {
      && |near| == S_NEAR && |same| == SAME_SLOTS && next < S_NEAR
      && (forall i :: 0 <= i < S_NEAR ==> near[i] < U64)
      && (forall i :: 0 <= i < SAME_SLOTS ==> same[i] < U64 && (same[i] == 0 || same[i] % SAME_SLOTS == i))
    }

    function Update(addr: nat): Cache
      requires Valid()
    {
      Cache(near[next := addr], same[addr % SAME_SLOTS := addr], (next + 1) % S_NEAR)
    }
  }

  function InitCache(): (c: Cache)
    ensures c.Valid()
  {
    Cache(seq(S_NEAR, _ => 0), seq(SAME_SLOTS, _ => 0), 0)
  }

  // A decoded address: its value and the number of section bytes it took.
  type Address = (nat, nat)

  // The address that bytes stand for in a mode, at position here. Addition and
  // subtraction are those of usize_t.
  function AddressAt(c: Cache, here: nat, mode: nat, s: seq<byte>): (r: Result<Address>)
    requires c.Valid() && mode < MODES
    ensures r.Ok? ==> r.value.0 < U64 && 0 < r.value.1 <= |s|
  {
    if mode < SAME_START then
      var (val, used) :- ReadInt(s);
      if mode == VCD_SELF then Ok((val, used))
      else if mode == VCD_HERE then Ok(((here - val) % U64, used))
      else Ok(((val + c.near[mode - 2]) % U64, used))
    else if s == [] then Fail
    else Ok((c.same[(mode - SAME_START) * 256 + s[0]], 1))
  }

  // Decoding an address looks only at the bytes it consumes.
  lemma AddressPrefix(c: Cache, here: nat, mode: nat, s: seq<byte>, rest: seq<byte>)
    requires c.Valid() && mode < MODES && AddressAt(c, here, mode, s).Ok?
    ensures AddressAt(c, here, mode, s + rest) == AddressAt(c, here, mode, s)
  {
    if mode < SAME_START {
      ReadPrefix(s, rest);
    }
  }

  // bytes is a complete encoding of addr in the given mode.
  ghost predicate Encodes(c: Cache, here: nat, mode: nat, bytes: seq<byte>, addr: nat)
    requires c.Valid()
  {
    mode < MODES && AddressAt(c, here, mode, bytes) == Ok((addr, |bytes|))
  }

  // The encoded value a complete encoding in a non-SAME mode must carry.
  function ModeValue(c: Cache, here: nat, mode: nat, addr: nat): nat
    requires c.Valid() && mode < SAME_START
  {
    if mode == VCD_SELF then addr
    else if mode == VCD_HERE then (here - addr) % U64
    else (addr - c.near[mode - 2]) % U64
  }

  lemma IntegerModeEncodes(c: Cache, here: nat, mode: nat, addr: nat)
    requires c.Valid() && mode < SAME_START && addr < U64 && here < U64
    ensures Encodes(c, here, mode, Encoded(ModeValue(c, here, mode, addr)), addr)
  {
    hide ReadInt, Encoded;
    var v := ModeValue(c, here, mode, addr);
    assert v < U64 && (mode >= 2 ==> c.near[mode - 2] < U64);
    hide Cache.Valid;
    ReadEncoded(v, []);
    assert Encoded(v) + [] == Encoded(v);
    if mode == VCD_HERE {
      HereBack(here, addr);
    } else if mode >= 2 {
      NearBack(c.near[mode - 2], addr);
    }
  }

  lemma HereBack(here: nat, addr: nat)
    requires addr < U64 && here < U64
    ensures (here - (here - addr) % U64) % U64 == addr
  {
  }

  lemma NearBack(near: nat, addr: nat)
    requires addr < U64 && near < U64
    ensures ((addr - near) % U64 + near) % U64 == addr
  {
  }

  // No encoding of addr in a non-SAME mode is shorter than that mode's value,
  // and the wrapped NEAR values are never below addr itself.
  lemma IntegerModeCost(c: Cache, here: nat, mode: nat, bytes: seq<byte>, addr: nat)
    requires c.Valid() && mode < SAME_START && addr < here < U64
    requires Encodes(c, here, mode, bytes, addr)
    ensures |Encoded(ModeValue(c, here, mode, addr))| <= |bytes|
    ensures mode >= 2 && addr < c.near[mode - 2] ==> addr < ModeValue(c, here, mode, addr)
    ensures mode == VCD_HERE ==> ModeValue(c, here, mode, addr) == here - addr
    ensures mode >= 2 && addr >= c.near[mode - 2] ==> ModeValue(c, here, mode, addr) == addr - c.near[mode - 2]
  {
    EncodedShortest(bytes);
    var val := ReadInt(bytes).value.0;
    if mode == VCD_HERE {
      ModSolve(here, val, addr);
      SmallMod(here - addr);
    } else if mode >= 2 {
      ModUnique(val, c.near[mode - 2], addr);
      if addr >= c.near[mode - 2] {
        SmallMod(addr - c.near[mode - 2]);
      } else {
        SmallMod(addr - c.near[mode - 2] + U64);
        AddMod(addr - c.near[mode - 2]);
      }
    }
  }

  lemma SmallMod(x: int)
    requires 0 <= x < U64
    ensures x % U64 == x
  {
  }

  lemma AddMod(x: int)
    ensures (x + U64) % U64 == x % U64
  {
  }

  lemma ModSolve(h: int, val: nat, a: nat)
    requires val < U64 && a < U64
    ensures (h - val) % U64 == a <==> (h - a) % U64 == val
  {
    if (h - val) % U64 == a {
      DivisionUnique(h - a, (h - val) / U64, val);
    }
    if (h - a) % U64 == val {
      DivisionUnique(h - val, (h - a) / U64, a);
    }
  }

  lemma ModUnique(val: nat, near: nat, addr: nat)
    requires val < U64 && near < U64 && addr < U64 && (val + near) % U64 == addr
    ensures (addr - near) % U64 == val
  {
    DivisionUnique(addr - near, -((val + near) / U64), val);
  }

  lemma DivisionUnique(x: int, q: int, r: nat)
    requires x == q * U64 + r && r < U64
    ensures x % U64 == r
  {
  }

  // A SAME slot other than the hashed one never yields a non-zero address.
  lemma SameModeSlot(c: Cache, here: nat, mode: nat, bytes: seq<byte>, addr: nat)
    requires c.Valid() && SAME_START <= mode && Encodes(c, here, mode, bytes, addr) && addr > 0
    ensures c.same[addr % SAME_SLOTS] == addr
  {
    var slot := (mode - SAME_START) * 256 + bytes[0];
    assert 0 <= slot < SAME_SLOTS;
    assert c.same[slot] == addr;
  }

  // A choice no dearer than SELF, HERE, the unwrapped NEAR values and a SAME hit
  // is no dearer than any encoding whatever of the address.
  lemma CheapestOfAll(c: Cache, here: nat, addr: nat, chosen: seq<byte>, mode: nat, bytes: seq<byte>)
    requires c.Valid() && addr < here < U64
    requires |chosen| <= |Encoded(addr)| && |chosen| <= |Encoded(here - addr)|
    requires forall i :: 0 <= i < S_NEAR && c.near[i] <= addr ==> |chosen| <= |Encoded(addr - c.near[i])|
    requires c.same[addr % SAME_SLOTS] == addr ==> |chosen| == 1
    requires Encodes(c, here, mode, bytes, addr)
    ensures |chosen| <= |bytes|
  {
    if mode >= SAME_START {
      if addr == 0 {
        assert |Encoded(0)| == 1;
      } else {
        SameModeSlot(c, here, mode, bytes, addr);
      }
    } else {
      IntegerModeCost(c, here, mode, bytes, addr);
      if mode >= 2 && addr < c.near[mode - 2] {
        EncodedLengthMonotone(addr, ModeValue(c, here, mode, addr));
      }
    }
  }

  lemma UpdateValid(c: Cache, addr: nat)
    requires c.Valid() && addr < U64
    ensures c.Update(addr).Valid()
  {
  }

  // xd3_addr_cache.
  class AddrCache {
    const near: array<nat>
    const same: array<nat>
    var nextSlot: nat

    ghost predicate Valid()
      reads this, near, same
    {
      near != same && near.Length == S_NEAR && same.Length == SAME_SLOTS && Contents().Valid()
    }

    ghost function Contents(): Cache
      reads this, near, same
    {
      Cache(near[..], same[..], nextSlot)
    }

    // xd3_alloc_cache followed by xd3_init_cache.
    constructor ()
      ensures Valid() && fresh(near) && fresh(same)
      ensures Contents() == InitCache()
    {
      near := new nat[S_NEAR](_ => 0);
      same := new nat[SAME_SLOTS](_ => 0);
      nextSlot := 0;
    }

    // xd3_init_cache: the cache is cleared before each window.
    method Init()
      requires Valid()
      modifies this, near, same
      ensures Valid() && Contents() == InitCache()
    {
      forall i | 0 <= i < near.Length {
        near[i] := 0;
      }
      nextSlot := 0;
      forall i | 0 <= i < same.Length {
        same[i] := 0;
      }
    }

    // xd3_update_cache.
    method Update(addr: nat)
      requires Valid() && addr < U64
      modifies this, near, same
      ensures Valid() && Contents() == old(Contents()).Update(addr)
    {
      near[nextSlot] := addr;
      nextSlot := (nextSlot + 1) % S_NEAR;
      same[addr % SAME_SLOTS] := addr;
      assert near[..] == old(near[..])[old(nextSlot) := addr];
      assert same[..] == old(same[..])[addr % SAME_SLOTS := addr];
      UpdateValid(old(Contents()), addr);
    }

    // xd3_encode_address. The bytes decode to addr in the chosen mode, and no
    // byte string in any mode that decodes to addr is shorter.
    method EncodeAddress(addr: nat, here: nat) returns (mode: nat, bytes: seq<byte>)
      requires Valid() && addr < here < U64
      modifies this, near, same
      ensures Valid() && Contents() == old(Contents()).Update(addr)
      ensures Encodes(old(Contents()), here, mode, bytes, addr)
      ensures forall m, bs :: Encodes(old(Contents()), here, m, bs, addr) ==> |bytes| <= |bs|
    {
      ghost var c := Contents();
      bytes, mode := [], 0;
      var bestd: nat, bestm: nat := addr, VCD_SELF;
      var good := bestd < 128;
      if !good && here - addr < bestd {
        bestd, bestm := here - addr, VCD_HERE;
        good := bestd < 128;
      }
      var i: nat := 0;
      while i < S_NEAR && !good
        invariant 0 <= i <= S_NEAR
        invariant bestm < SAME_START && bestd == ModeValue(c, here, bestm, addr) < U64
        invariant good <==> bestd < 128
        invariant !good ==> bestd <= addr && bestd <= here - addr
        invariant !good ==> forall k :: 0 <= k < i && c.near[k] <= addr ==> bestd <= addr - c.near[k]
        decreases S_NEAR - i, !good
      {
        if addr >= near[i] {
          var d := addr - near[i];
          if d < bestd {
            bestd, bestm := d, i + 2;
            good := bestd < 128;
          }
        }
        i := i + 1;
      }
      var d := addr % SAME_SLOTS;
      if !good && same[d] == addr {
        bestd := d % 256;
        bestm := S_NEAR + 2 + d / 256;
        bytes := [bestd];
        assert Encodes(c, here, bestm, bytes, addr);
      } else {
        bytes := EmitInteger(bestd);
        IntegerModeEncodes(c, here, bestm, addr);
        Cheaper(c, here, addr, bestd, good);
      }
      forall m, bs | Encodes(c, here, m, bs, addr)
        ensures |bytes| <= |bs|
      {
        if |bytes| > 1 {
          CheapestOfAll(c, here, addr, bytes, m, bs);
        }
      }
      mode := bestm;
      Update(addr);
    }

    // xd3_decode_address, on an address section from position pos.
    method DecodeAddress(here: nat, mode: nat, section: seq<byte>, pos: nat) returns (r: Result<Address>)
      requires Valid() && mode < MODES && pos <= |section|
      modifies this, near, same
      ensures Valid()
      ensures r == AddressAt(old(Contents()), here, mode, section[pos..])
      ensures Contents() == if r.Ok? then old(Contents()).Update(r.value.0) else old(Contents())
    {
      var val, used := 0, 1;
      if mode < SAME_START {
        var read, tooLarge := ReadInteger(section, pos);
        if read.Fail? {
          return Fail;
        }
        val, used := read.value.0, read.value.1;
        if mode == VCD_HERE {
          val := (here - val) % U64;
        } else if mode >= 2 {
          val := (val + near[mode - 2]) % U64;
        }
      } else {
        if pos == |section| {
          return Fail;
        }
        assert section[pos..][0] == section[pos];
        val := same[(mode - SAME_START) * 256 + section[pos]];
        assert val == old(Contents()).same[(mode - SAME_START) * 256 + section[pos]];
      }
      Update(val);
      r := Ok((val, used));
    }
  }

  // A best value that is one byte, or below every candidate, makes a cheapest
  // encoding.
  lemma Cheaper(c: Cache, here: nat, addr: nat, bestd: nat, good: bool)
    requires c.Valid() && addr < here < U64
    requires good <==> bestd < 128
    requires !good ==> bestd <= addr && bestd <= here - addr
    requires !good ==> forall k :: 0 <= k < S_NEAR && c.near[k] <= addr ==> bestd <= addr - c.near[k]
    ensures |Encoded(bestd)| == 1 <==> good
    ensures |Encoded(bestd)| > 1 ==> |Encoded(bestd)| <= |Encoded(addr)| && |Encoded(bestd)| <= |Encoded(here - addr)|
    ensures |Encoded(bestd)| > 1 ==>
              forall i :: 0 <= i < S_NEAR && c.near[i] <= addr ==> |Encoded(bestd)| <= |Encoded(addr - c.near[i])|
  {
    if !good {
      EncodedLengthMonotone(bestd, addr);
      EncodedLengthMonotone(bestd, here - addr);
      forall i | 0 <= i < S_NEAR && c.near[i] <= addr
        ensures |Encoded(bestd)| <= |Encoded(addr - c.near[i])|
      {
        EncodedLengthMonotone(bestd, addr - c.near[i]);
      }
    }
  }
}
