// The default instruction code table (RFC 3284, section 5.6): its construction
// from a description, and the encoder's hard-coded choice of opcodes.
module CodeTable {
  import opened Bytes

  // Instruction types. A COPY with address mode m has type XD3_CPY + m.
  const XD3_NOOP: nat := 0
  const XD3_ADD: nat := 1
  const XD3_RUN: nat := 2
  const XD3_CPY: nat := 3

  const MIN_MATCH: nat := 4

  // xd3_dinst: a code table entry. Size 0 means the size follows the opcode.
  datatype Entry = Entry(type1: nat, size1: nat, type2: nat, size2: nat)

  const EmptyEntry: Entry := Entry(XD3_NOOP, 0, XD3_NOOP, 0)

  // xd3_code_table_desc, and the description of the default table.
  datatype Description = Description(
    addSizes: nat, nearModes: nat, sameModes: nat, cpySizes: nat,
    addcopyAddMax: nat, addcopyNearCpyMax: nat, addcopySameCpyMax: nat,
    copyaddAddMax: nat, copyaddNearCpyMax: nat, copyaddSameCpyMax: nat)

  const Rfc3284: Description := Description(17, 4, 3, 15, 4, 6, 4, 1, 4, 4)

  // The table as RFC 3284 lists it, opcode by opcode.
  function Rfc3284Entry(code: byte): Entry {
    if code == 0 then Entry(XD3_RUN, 0, XD3_NOOP, 0)
    else if code <= 18 then Entry(XD3_ADD, code - 1, XD3_NOOP, 0)
    else if code <= 162 then
      var k := (code - 19) % 16;
      Entry(XD3_CPY + (code - 19) / 16, if k == 0 then 0 else k + 3, XD3_NOOP, 0)
    else if code <= 234 then
      var k := (code - 163) % 12;
      Entry(XD3_ADD, k / 3 + 1, XD3_CPY + (code - 163) / 12, k % 3 + 4)
    else if code <= 246 then
      Entry(XD3_ADD, (code - 235) % 4 + 1, XD3_CPY + 6 + (code - 235) / 4, 4)
    else Entry(XD3_CPY + (code - 247), 4, XD3_ADD, 1)
  }

  ghost predicate Built(tbl: array<Entry>, d: nat)
    reads tbl
  {
    && tbl.Length == 256 && d <= 256
    && (forall i :: 0 <= i < d ==> tbl[i] == Rfc3284Entry(i))
    && (forall i :: d <= i < 256 ==> tbl[i] == EmptyEntry)
  }

  // Where an ADD/COPY pair sits in the table.
  function AddCopyPlace(mode: nat, size1: nat, size2: nat): int {
    if mode <= 5 then 163 + 12 * mode + 3 * (size1 - 1) + (size2 - 4)
    else 235 + 4 * (mode - 6) + (size1 - 1) + (size2 - 4)
  }

  // xd3_build_code_table for the default description. Its four loop nests are
  // the four methods below; each returns the next free index.
  method BuildCodeTable() returns (tbl: array<Entry>)
    ensures fresh(tbl) && tbl.Length == 256
    ensures forall i :: 0 <= i < 256 ==> tbl[i] == Rfc3284Entry(i)
  {
    tbl := new Entry[256](_ => EmptyEntry);
    var d := 0;
    tbl[d] := tbl[d].(type1 := XD3_RUN);
    d := d + 1;
    tbl[d] := tbl[d].(type1 := XD3_ADD);
    d := d + 1;
    d := FillAdds(Rfc3284, tbl, d);
    d := FillCopies(Rfc3284, tbl, d);
    d := FillAddCopies(Rfc3284, tbl, d);
    d := FillCopyAdds(Rfc3284, tbl, d);
  }

  method FillAdds(desc: Description, tbl: array<Entry>, start: nat) returns (d: nat)
    requires desc == Rfc3284 && start == 2 && Built(tbl, start)
    modifies tbl
    ensures d == 19 && Built(tbl, d)
  {
    d := start;
    var size1 := 1;
    while size1 <= desc.addSizes
      invariant 1 <= size1 <= 18 && d == size1 + 1 && Built(tbl, d)
    {
      tbl[d] := tbl[d].(type1 := XD3_ADD, size1 := size1);
      size1, d := size1 + 1, d + 1;
    }
  }

  method FillCopies(desc: Description, tbl: array<Entry>, start: nat) returns (d: nat)
    requires desc == Rfc3284 && start == 19 && Built(tbl, start)
    modifies tbl
    ensures d == 163 && Built(tbl, d)
  {
    hide Rfc3284Entry;
    d := start;
    var mode := 0;
    while mode < 2 + desc.nearModes + desc.sameModes
      invariant mode <= 9 && d == 19 + 16 * mode && Built(tbl, d)
    {
      CopyEntries(mode, MIN_MATCH);
      tbl[d] := tbl[d].(type1 := XD3_CPY + mode);
      d := d + 1;
      var size1 := MIN_MATCH;
      while size1 < MIN_MATCH + desc.cpySizes
        invariant MIN_MATCH <= size1 <= 19 && d == 16 + 16 * mode + size1 && Built(tbl, d)
      {
        CopyEntries(mode, size1);
        tbl[d] := tbl[d].(type1 := XD3_CPY + mode, size1 := size1);
        size1, d := size1 + 1, d + 1;
      }
      mode := mode + 1;
    }
  }

  method FillAddCopies(desc: Description, tbl: array<Entry>, start: nat) returns (d: nat)
    requires desc == Rfc3284 && start == 163 && Built(tbl, start)
    modifies tbl
    ensures d == 247 && Built(tbl, d)
  {
    hide Rfc3284Entry;
    d := start;
    var mode := 0;
    while mode < 2 + desc.nearModes + desc.sameModes
      invariant mode <= 9 && d == AddCopyPlace(mode, 1, 4) && Built(tbl, d)
    {
      var max := if mode < 2 + desc.nearModes then desc.addcopyNearCpyMax else desc.addcopySameCpyMax;
      var size1 := 1;
      while size1 <= desc.addcopyAddMax
        invariant 1 <= size1 <= 5 && d == AddCopyPlace(mode, size1, 4) && Built(tbl, d)
      {
        var size2 := MIN_MATCH;
        while size2 <= max
          invariant MIN_MATCH <= size2 <= max + 1
          invariant d == AddCopyPlace(mode, size1, size2) && Built(tbl, d)
        {
          AddCopyEntry(mode, size1, size2);
          tbl[d] := Entry(XD3_ADD, size1, XD3_CPY + mode, size2);
          size2, d := size2 + 1, d + 1;
        }
        size1 := size1 + 1;
      }
      mode := mode + 1;
    }
  }

  method FillCopyAdds(desc: Description, tbl: array<Entry>, start: nat) returns (d: nat)
    requires desc == Rfc3284 && start == 247 && Built(tbl, start)
    modifies tbl
    ensures d == 256 && Built(tbl, d)
  {
    d := start;
    var mode := 0;
    while mode < 2 + desc.nearModes + desc.sameModes
      invariant mode <= 9 && d == 247 + mode && Built(tbl, d)
    {
      var max := if mode < 2 + desc.nearModes then desc.copyaddNearCpyMax else desc.copyaddSameCpyMax;
      var size1 := MIN_MATCH;
      while size1 <= max
        invariant MIN_MATCH <= size1 <= 5 && d == 247 + mode + (size1 - 4) && Built(tbl, d)
      {
        var size2 := 1;
        while size2 <= desc.copyaddAddMax
          invariant 1 <= size2 <= 2 && d == 247 + mode + (size1 - 4) + (size2 - 1) && Built(tbl, d)
        {
          tbl[d] := Entry(XD3_CPY + mode, size1, XD3_ADD, size2);
          size2, d := size2 + 1, d + 1;
        }
        size1 := size1 + 1;
      }
      mode := mode + 1;
    }
  }

  // The entries of a copy alone, without and with a size.
  lemma CopyEntries(mode: nat, size: nat)
    requires mode <= 8 && 4 <= size <= 18
    ensures Rfc3284Entry(19 + 16 * mode) == Entry(XD3_CPY + mode, 0, XD3_NOOP, 0)
    ensures Rfc3284Entry(16 + 16 * mode + size) == Entry(XD3_CPY + mode, size, XD3_NOOP, 0)
  {
    var k := size - 3;
    assert (16 * mode + k) / 16 == mode && (16 * mode + k) % 16 == k;
    assert (16 * mode) / 16 == mode && (16 * mode) % 16 == 0;
  }

  lemma AddCopyEntry(mode: nat, size1: nat, size2: nat)
    requires mode <= 8 && 1 <= size1 <= 4 && 4 <= size2 <= (if mode <= 5 then 6 else 4)
    ensures var code := AddCopyPlace(mode, size1, size2);
            0 <= code < 247 && Rfc3284Entry(code) == Entry(XD3_ADD, size1, XD3_CPY + mode, size2)
  {
    if mode <= 5 {
      var k := 3 * (size1 - 1) + (size2 - 4);
      assert (12 * mode + k) / 12 == mode && (12 * mode + k) % 12 == k;
      assert k / 3 == size1 - 1 && k % 3 == size2 - 4;
    } else {
      var k := size1 - 1;
      assert (4 * (mode - 6) + k) / 4 == mode - 6 && (4 * (mode - 6) + k) % 4 == k;
    }
  }

  // The opcode xd3_choose_instruction gives an instruction on its own.
  function SingleCode(typ: nat, size: nat): byte
    requires XD3_ADD <= typ < XD3_CPY + 9
  {
    if typ == XD3_RUN then 0
    else if typ == XD3_ADD then if size <= 17 then 1 + size else 1
    else if 4 <= size <= 18 then 19 + 16 * (typ - XD3_CPY) + (size - 3)
    else 19 + 16 * (typ - XD3_CPY)
  }

  // The opcode it gives two adjacent instructions together, or 0.
  function DoubleCode(type1: nat, size1: nat, type2: nat, size2: nat): byte
    requires XD3_ADD <= type1 < XD3_CPY + 9 && XD3_ADD <= type2 < XD3_CPY + 9 && size1 > 0
  {
    if type2 == XD3_ADD && size2 == 1 && size1 == 4 && type1 >= XD3_CPY then
      247 + (type1 - XD3_CPY)
    else if type2 >= XD3_CPY && 4 <= size2 <= 18 && type1 == XD3_ADD && size1 <= 4 then
      var mode := type2 - XD3_CPY;
      if size2 <= 6 && mode <= 5 then 163 + mode * 12 + 3 * (size1 - 1) + (size2 - 4)
      else if size2 == 4 && mode >= 6 then 235 + (mode - 6) * 4 + (size1 - 1)
      else 0
    else 0
  }

  // The table entry of a chosen single opcode is that instruction, with the size
  // either in the entry or left to follow the opcode.
  lemma SingleCodeMeans(typ: nat, size: nat)
    requires XD3_ADD <= typ < XD3_CPY + 9 && size > 0
    ensures var e := Rfc3284Entry(SingleCode(typ, size));
            e.type1 == typ && e.type2 == XD3_NOOP && (e.size1 == 0 || e.size1 == size)
  {
    if typ >= XD3_CPY {
      var m := typ - XD3_CPY;
      var k := if 4 <= size <= 18 then size - 3 else 0;
      assert (16 * m + k) / 16 == m && (16 * m + k) % 16 == k;
    }
  }

  // A non-zero double opcode stands for exactly the two instructions.
  lemma DoubleCodeMeans(type1: nat, size1: nat, type2: nat, size2: nat)
    requires XD3_ADD <= type1 < XD3_CPY + 9 && XD3_ADD <= type2 < XD3_CPY + 9 && size1 > 0 && size2 > 0
    requires DoubleCode(type1, size1, type2, size2) != 0
    ensures Rfc3284Entry(DoubleCode(type1, size1, type2, size2)) == Entry(type1, size1, type2, size2)
  {
    if type2 >= XD3_CPY {
      AddCopyEntry(type2 - XD3_CPY, size1, size2);
    }
  }
}
