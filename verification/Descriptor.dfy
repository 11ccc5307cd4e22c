/** The descriptor word of src/arch/aarch64/paging/table_entry.rs (VMSAv8-64, chapter D8 of the Arm Architecture
    Reference Manual): every setter overwrites its own field and leaves the others as they are. */
module Descriptor {
  type Word = bv64

  const TABLE_ADDRESS_MASK: Word := 0x000f_ffff_ffff_f000
  const OUTPUT_ADDRESS_MASK: Word := 0x0003_ffff_ffff_f000
  const XN: Word := 0x0040_0000_0000_0000
  const AF: Word := 0x400
  const SH: Word := 0x300
  const AP: Word := 0xc0
  const ATTR_INDEX: Word := 0x1c

  datatype Permission = Permission(readable: bool, writable: bool, executable: bool, user: bool)

  datatype Kind = Unused | Block | TableOrPage | Reserved

  function Bit(b: bool): Word { if b then 1 else 0 }

  /** The two low bits. */
  function KindOf(w: Word): Kind {
    if w & 3 == 0 then Unused else if w & 3 == 3 then TableOrPage else if w & 3 == 1 then Block else Reserved
  }

  function OutputAddress(w: Word): Word { w & OUTPUT_ADDRESS_MASK }

  function NextTable(w: Word): Word { w & TABLE_ADDRESS_MASK }

  function PermissionOf(w: Word): Permission {
    var p := (w & AP) >> 6;
    Permission(true, p & 2 == 0, w & XN == 0, p & 1 != 0)
  }

  function AttributeIndex(w: Word): Word { (w & ATTR_INDEX) >> 2 }

  function Shareability(w: Word): Word { (w & SH) >> 8 }

  /** The words agree outside the field. */
  predicate Kept(w: Word, u: Word, field: Word) { w & !field == u & !field }

  /** The permission field, from its three flags. */
  function PermissionBits(p: Permission): Word {
    (Bit(!p.executable) << 54) | (((Bit(!p.writable) << 1) | Bit(p.user)) << 6)
  }

  lemma PermissionReads(p: Permission, w: Word)
    requires w & (AP | XN) == PermissionBits(p)
    ensures PermissionOf(w) == p.(readable := true)
  {
    assert w & AP == (w & (AP | XN)) & AP && w & XN == (w & (AP | XN)) & XN;
  }

  lemma PermissionField(p: Permission)
    ensures PermissionBits(p) & !(AP | XN) == 0
  {
  }

  lemma FieldSet(w: Word, mask: Word, bits: Word)
    requires bits & !mask == 0
    ensures ((w & !mask) | bits) & mask == bits && ((w & !mask) | bits) & !mask == w & !mask
  {
  }

  lemma OthersKept(w: Word, u: Word, x: Word)
    requires Kept(u, w, ATTR_INDEX) && Kept(x, u, SH)
    ensures x & AP == w & AP && x & XN == w & XN && x & ATTR_INDEX == u & ATTR_INDEX
  {
  }

  lemma RestKept(v: Word, w: Word, u: Word, x: Word)
    requires Kept(w, v, AP | XN) && Kept(u, w, ATTR_INDEX) && Kept(x, u, SH)
    ensures Kept(x, v, AP | XN | SH | ATTR_INDEX)
  {
  }

  /** The three fields written one after the other keep the rest and each other. */
  lemma ThreeFields(v: Word, w: Word, u: Word, x: Word)
    requires Kept(w, v, AP | XN) && Kept(u, w, ATTR_INDEX) && Kept(x, u, SH)
    ensures PermissionOf(x) == PermissionOf(w)
    ensures AttributeIndex(x) == AttributeIndex(u)
    ensures Kept(x, v, AP | XN | SH | ATTR_INDEX)
  {
    hide Kept;
    OthersKept(w, u, x);
    RestKept(v, w, u, x);
  }

  /** The address fits the field exactly if it is a multiple of a page below 2^50. */
  lemma FitsField(address: Word)
    ensures address & !OUTPUT_ADDRESS_MASK == 0 <==> address & 0xfff == 0 && address < 0x4_0000_0000_0000
  {
  }

  lemma AddressWritten(w: Word, address: Word)
    ensures var x := (w & !OUTPUT_ADDRESS_MASK) | address | AF;
      && (address & !OUTPUT_ADDRESS_MASK == 0 <==> OutputAddress(x) == address && Kept(x, w, OUTPUT_ADDRESS_MASK | AF))
      && (x >> 10) & 1 == 1
  {
  }

  class TableEntry {
    var word: Word

    constructor ()
      ensures word == 0
    {
      word := 0;
    }

    method ValidateAsLevel3()
      modifies this
      ensures KindOf(word) == TableOrPage
      ensures OutputAddress(word) == old(OutputAddress(word)) && PermissionOf(word) == old(PermissionOf(word))
      ensures AttributeIndex(word) == old(AttributeIndex(word)) && Shareability(word) == old(Shareability(word))
    {
      word := word | 3;
    }

    /** A word whose second bit was set becomes a table descriptor, not a block. */
    method ValidateAsBlock()
      modifies this
      ensures KindOf(word) == Block <==> old(word) & 2 == 0
      ensures OutputAddress(word) == old(OutputAddress(word)) && PermissionOf(word) == old(PermissionOf(word))
      ensures AttributeIndex(word) == old(AttributeIndex(word)) && Shareability(word) == old(Shareability(word))
    {
      word := word | 1;
    }

    /** The address is not masked: it reads back, and disturbs no other field, exactly if it fits the field. */
    method SetOutputAddress(address: Word)
      modifies this
      ensures address & !OUTPUT_ADDRESS_MASK == 0 <==>
        && OutputAddress(word) == address
        && Kept(word, old(word), OUTPUT_ADDRESS_MASK | AF)
      ensures (word >> 10) & 1 == 1
    {
      hide OutputAddress, Kept;
      AddressWritten(word, address);
      word := (word & !OUTPUT_ADDRESS_MASK) | address | AF;
    }

    /** The flags read back, except that every entry is readable. */
    method SetPermission(p: Permission)
      modifies this
      ensures PermissionOf(word) == p.(readable := true)
      ensures Kept(word, old(word), AP | XN)
    {
      hide PermissionBits, PermissionOf;
      PermissionField(p);
      FieldSet(word, AP | XN, PermissionBits(p));
      word := (word & !(AP | XN)) | PermissionBits(p);
      PermissionReads(p, word);
    }

    method SetShareability(s: Word)
      modifies this
      ensures s < 4 ==> Shareability(word) == s && Kept(word, old(word), SH)
    {
      word := (word & !SH) | (s << 8);
    }

    method SetMemoryAttributeIndex(i: Word)
      modifies this
      ensures i < 8 ==> AttributeIndex(word) == i && Kept(word, old(word), ATTR_INDEX)
    {
      word := (word & !ATTR_INDEX) | (i << 2);
    }

    /** set_permission_and_options. */
    method SetPermissionAndOptions(p: Permission, device: bool, deviceIndex: Word, normalIndex: Word)
      requires deviceIndex < 8 && normalIndex < 8
      modifies this
      ensures PermissionOf(word) == p.(readable := true)
      ensures AttributeIndex(word) == if device then deviceIndex else normalIndex
      ensures Shareability(word) == if device then 0 else 3
      ensures Kept(word, old(word), AP | XN | SH | ATTR_INDEX)
    {
      hide PermissionOf, Shareability, AttributeIndex, Kept;
      SetPermission(p);
      ghost var w := word;
      SetMemoryAttributeIndex(if device then deviceIndex else normalIndex);
      ghost var u := word;
      SetShareability(if device then 0 else 3);
      ThreeFields(old(word), w, u, word);
    }
  }

  /** The sequence that associate_address runs on a page descriptor: whatever the word held before, exactly
      what was put in is read back. */
  method WritePage(e: TableEntry, address: Word, p: Permission, device: bool, deviceIndex: Word, normalIndex: Word)
    requires address & !OUTPUT_ADDRESS_MASK == 0 && deviceIndex < 8 && normalIndex < 8
    modifies e
    ensures KindOf(e.word) == TableOrPage && OutputAddress(e.word) == address &&
      PermissionOf(e.word) == p.(readable := true)
    ensures AttributeIndex(e.word) == if device then deviceIndex else normalIndex
  {
    e.word := 0;
    e.SetOutputAddress(address);
    e.SetPermissionAndOptions(p, device, deviceIndex, normalIndex);
    e.ValidateAsLevel3();
  }

  /** The sequence of the bulk path for a block descriptor. */
  method WriteBlock(e: TableEntry, address: Word, p: Permission, device: bool, deviceIndex: Word, normalIndex: Word)
    requires address & !OUTPUT_ADDRESS_MASK == 0 && deviceIndex < 8 && normalIndex < 8
    modifies e
    ensures KindOf(e.word) == Block && OutputAddress(e.word) == address && PermissionOf(e.word) == p.(readable := true)
    ensures AttributeIndex(e.word) == if device then deviceIndex else normalIndex
  {
    e.word := 0;
    e.SetPermissionAndOptions(p, device, deviceIndex, normalIndex);
    e.ValidateAsBlock();
    e.SetOutputAddress(address);
  }

  /** create_table_entry reads back as a table at that address exactly for page-aligned addresses below 2^52. */
  method CreateTableEntry(address: Word) returns (w: Word)
    ensures address & !TABLE_ADDRESS_MASK == 0 <==>
      KindOf(w) == TableOrPage && NextTable(w) == address && w & !(TABLE_ADDRESS_MASK | 3) == 0
  {
    w := address | 3;
  }
}
