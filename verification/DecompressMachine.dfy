/** The decompressor as a machine that waits for bits: at each label it asks for some number
    of them, and what it does with their value is a step to the next label that asks. All its
    locals are in the state, so a call may end and be resumed at any label. */
module DecompressMachine {
  import opened Bits
  import opened Radix
  import opened BwtTheory
  import opened HuffmanForest
  import opened HuffmanCodes
  import opened MtfEncode
  import opened BlockFormat
  import MTF = MoveToFront

  /** Where the machine stands. The last five are passed through within a call: work without input. */
  datatype Label =
    | Magic(k: nat) | BlkHdr(k: nat) | BCrc(k: nat) | RandBit | OrigPtr(k: nat)
    | Mapping1 | Mapping2 | Selector1 | Selector2 | Selector3 | Coding1 | Coding2 | Coding3
    | Mtf(site: nat, more: bool)
    | EndHdr(k: nat) | CCrc(k: nat) | Output | Idle | BadMagic | BadData
    | Allocate | MakeMaps | UndoSelectors | MakeTables | Decoded(site: nat, sym: int)

  /** One table for decoding. */
  datatype Decoding = Decoding(minLen: int, limit: seq<int>, base: seq<int>, perm: seq<int>)

  /** The saved locals and the small tables. */
  datatype Core = Core(at: Label, blockSize100k: nat, currBlockNo: nat, storedBlockCRC: Word, storedCombinedCRC: Word,
    randomised: bool, origPtr: nat, inUse16: seq<bool>, inUse: seq<bool>, nInUse: nat, i: nat, j: nat,
    nGroups: nat, nSelectors: nat, selectorMtf: seq<nat>, selector: seq<Byte>, curr: int, row: seq<int>,
      lens: seq<seq<int>>,
    rows: seq<Decoding>, groupNo: int, groupPos: nat, gSel: nat, zn: nat, zvec: nat, es: int, N: nat, nblock: nat)

  /** The whole state: also the decoder's list, the map of bytes in use, and the column decoded so far. */
  datatype Saved = Saved(core: Core, list: seq<Byte>, maps: seq<Byte>, out: seq<Byte>)

  function With(s: Saved, c: Core): Saved { s.(core := c) }

  predicate Terminal(l: Label) { l.Output? || l.Idle? || l.BadMagic? || l.BadData? }

  /** How many bits the label asks for. */
  function Want(c: Core): nat {
    match c.at
    case Magic(_) => 8
    case BlkHdr(_) => 8
    case BCrc(_) => 8
    case RandBit => 1
    case OrigPtr(_) => 8
    case Mapping1 => 1
    case Mapping2 => 1
    case Selector1 => 3
    case Selector2 => 15
    case Selector3 => 1
    case Coding1 => 5
    case Coding2 => 1
    case Coding3 => 1
    case Mtf(_, more) => if more then 1 else c.zn
    case EndHdr(_) => 8
    case CCrc(_) => 8
    case _ => 0
  }

  function Bad(c: Core): Core { c.(at := BadData) }

  // ---- the header, the block's header, and the trailer ----

  const MAGIC: seq<nat> := [0x42, 0x5a, 0x68]
  const BLOCK_MARK: seq<nat> := [0x31, 0x41, 0x59, 0x26, 0x53, 0x59]
  const END_MARK: seq<nat> := [0x17, 0x72, 0x45, 0x38, 0x50, 0x90]

  function ShiftIn8(crc: Word, v: nat): Word { (crc * 256 + v) % 0x1_0000_0000 }

  function StepHeader(c: Core, v: nat): Core {
    match c.at
    case Magic(k) =>
      if k < 4 then (if 1 <= k && v == MAGIC[k - 1] then c.(at := Magic(k + 1)) else c.(at := BadMagic))
      else if 0x31 <= v <= 0x39 then c.(blockSize100k := v - 0x30, at := Allocate) else c.(at := BadMagic)
    case BlkHdr(k) =>
      if k == 1 && v == END_MARK[0] then c.(at := EndHdr(2))
      else if !(1 <= k <= 6) || v != BLOCK_MARK[k - 1] then Bad(c)
      else if k < 6 then c.(at := BlkHdr(k + 1))
      else c.(currBlockNo := c.currBlockNo + 1, storedBlockCRC := 0, at := BCrc(1))
    case BCrc(k) =>
      var c' := c.(storedBlockCRC := ShiftIn8(c.storedBlockCRC, v));
      if k < 4 then c'.(at := BCrc(k + 1)) else c'.(at := RandBit)
    case RandBit => c.(randomised := v == 1, origPtr := 0, at := OrigPtr(1))
    case OrigPtr(k) =>
      var c' := c.(origPtr := c.origPtr * 256 + v);
      if k < 3 then c'.(at := OrigPtr(k + 1))
      else if c'.origPtr > 10 + 100000 * c.blockSize100k then Bad(c')
      else c'.(i := 0, inUse16 := [], at := Mapping1)
    case EndHdr(k) =>
      if !(2 <= k <= 6) || v != END_MARK[k - 1] then Bad(c)
      else if k < 6 then c.(at := EndHdr(k + 1))
      else c.(storedCombinedCRC := 0, at := CCrc(1))
    case CCrc(k) =>
      var c' := c.(storedCombinedCRC := ShiftIn8(c.storedCombinedCRC, v));
      if k < 4 then c'.(at := CCrc(k + 1)) else c'.(at := Idle)
    case _ => c
  }

  // ---- the mapping table ----

  function NoneUsed(): (s: seq<bool>)
    ensures |s| == 256 && forall k :: 0 <= k < 256 ==> !s[k]
  {
    seq(256, _ => false)
  }

  /** The next row of sixteen that has bytes in use; after the last, the maps are made. */
  function SeekRow(c: Core, i: nat): Core
    requires |c.inUse16| == 16 && i <= 16
    decreases 16 - i
  {
    if i == 16 then c.(i := 16, at := MakeMaps)
    else if c.inUse16[i] then c.(i := i, j := 0, at := Mapping2)
    else SeekRow(c, i + 1)
  }

  function StepMapping(c: Core, v: nat): Core
    requires c.at.Mapping1? ==> |c.inUse16| < 16
    requires c.at.Mapping2? ==> |c.inUse16| == 16 && c.i < 16 && c.j < 16 && |c.inUse| == 256
  {
    match c.at
    case Mapping1 =>
      var c' := c.(inUse16 := c.inUse16 + [v == 1]);
      if |c'.inUse16| < 16 then c' else SeekRow(c'.(inUse := NoneUsed()), 0)
    case Mapping2 =>
      var c' := if v == 1 then c.(inUse := c.inUse[c.i * 16 + c.j := true]) else c;
      if c.j + 1 < 16 then c'.(j := c.j + 1) else SeekRow(c', c.i + 1)
    case _ => c
  }

  // ---- the selectors ----

  function StepSelectors(c: Core, v: nat): Core {
    match c.at
    case Selector1 => if 2 <= v <= 6 then c.(nGroups := v, at := Selector2) else Bad(c.(nGroups := v))
    case Selector2 =>
      if v < 1 then Bad(c.(nSelectors := v)) else c.(nSelectors := v, i := 0, j := 0, selectorMtf := [],
                                                     at := Selector3)
    case Selector3 =>
      if v != 0 then (if c.j + 1 >= c.nGroups then Bad(c) else c.(j := c.j + 1))
      else
        var c' := c.(selectorMtf := c.selectorMtf + [c.j], i := c.i + 1, j := 0);
        if c'.i < c.nSelectors then c' else c'.(at := UndoSelectors)
    case _ => c
  }

  // ---- the code lengths ----

  /** The check before each bit of a length. */
  function CheckLength(c: Core): Core {
    if 1 <= c.curr <= LONGEST then c.(at := Coding2) else Bad(c)
  }

  function StepCoding(c: Core, v: nat): Core {
    match c.at
    case Coding1 => CheckLength(c.(curr := v, i := 0, row := []))
    case Coding2 =>
      if v != 0 then c.(at := Coding3)
      else
        var c' := c.(row := c.row + [c.curr], i := c.i + 1);
        if c'.i < c.nInUse + 2 then CheckLength(c')
        else
          var c'' := c'.(lens := c.lens + [c'.row]);
          c''.(at := if |c''.lens| < c.nGroups then Coding1 else MakeTables)
    case Coding3 => CheckLength(c.(curr := if v == 0 then c.curr + 1 else c.curr - 1))
    case _ => c
  }

  // ---- one symbol ----

  /** The start of GET_MTF_VAL: perhaps a new group; then the shortest code length's bits are asked for. */
  function NeedSymbol(c: Core, site: nat): Core
    requires 0 <= c.groupNo + 1 && c.nSelectors == |c.selector|
    requires c.groupPos > 0 ==> c.gSel < |c.rows|
    requires forall g :: 0 <= g < |c.selector| ==> c.selector[g] < |c.rows|
    requires forall g :: 0 <= g < |c.rows| ==> c.rows[g].minLen >= 0
  {
    if c.groupPos == 0 && c.groupNo + 1 >= c.nSelectors then Bad(c.(groupNo := c.groupNo + 1))
    else
      var c' := if c.groupPos == 0 then c.(groupNo := c.groupNo + 1, groupPos := GROUP,
                                           gSel := c.selector[c.groupNo + 1]) else c;
      c'.(groupPos := c'.groupPos - 1, zn := c'.rows[c'.gSel].minLen, at := Mtf(site, false))
  }

  /** The loop of GET_MTF_VAL up to the next bit it needs. */
  function CheckCode(c: Core, site: nat): Core
    requires c.gSel < |c.rows| && |c.rows[c.gSel].limit| == |c.rows[c.gSel].base| == |c.rows[c.gSel].perm| == MAX_ALPHA
  {
    var t := c.rows[c.gSel];
    if c.zn > LONGEST then Bad(c)
    else if c.zvec <= t.limit[c.zn] then
      var k := c.zvec - t.base[c.zn];
      if k < 0 || k >= MAX_ALPHA then Bad(c) else c.(at := Decoded(site, t.perm[k]))
    else c.(zn := c.zn + 1, at := Mtf(site, true))
  }

  function StepMtf(c: Core, v: nat): Core
    requires c.gSel < |c.rows| && |c.rows[c.gSel].limit| == |c.rows[c.gSel].base| == |c.rows[c.gSel].perm| == MAX_ALPHA
  {
    match c.at
    case Mtf(site, more) => CheckCode(c.(zvec := if more then c.zvec * 2 + v else v), site)
    case _ => c
  }

  // ---- what the state must be at each label ----

  ghost predicate Row(d: Decoding) {
    && |d.limit| == |d.base| == |d.perm| == MAX_ALPHA && 0 <= d.minLen <= LONGEST
    && (forall k :: 0 <= k < MAX_ALPHA ==> 0 <= d.perm[k] < MAX_ALPHA)
  }

  ghost predicate Always(c: Core) {
    && |c.inUse| == 256 && |c.rows| == 6 && (forall g :: 0 <= g < 6 ==> Row(c.rows[g])) && c.blockSize100k <= 9
  }

  ghost predicate Grouped(c: Core) {
    && 0 < c.nInUse <= 256 && 2 <= c.nGroups <= 6
  }

  ghost predicate Selecting(c: Core) {
    && Grouped(c) && c.nSelectors >= 1 && |c.selectorMtf| == c.i && c.j < c.nGroups
    && (forall k :: 0 <= k < |c.selectorMtf| ==> c.selectorMtf[k] < c.nGroups)
  }

  ghost predicate Selected(c: Core) {
    Grouped(c) && |c.selector| == c.nSelectors && forall k :: 0 <= k < |c.selector| ==> c.selector[k] < c.nGroups
  }

  ghost predicate FullRow(row: seq<int>, n: nat) {
    |row| == n && forall k :: 0 <= k < n ==> 1 <= row[k] <= LONGEST
  }

  ghost predicate Coding(c: Core) {
    && Selected(c) && |c.lens| < c.nGroups && (forall t :: 0 <= t < |c.lens| ==> FullRow(c.lens[t], c.nInUse + 2))
  }

  ghost predicate InRow(c: Core) {
    Coding(c) && |c.row| == c.i < c.nInUse + 2 && (forall k :: 0 <= k < |c.row| ==> 1 <= c.row[k] <= LONGEST)
      && 1 <= c.curr <= LONGEST
  }

  /** Between symbols. */
  ghost predicate Reading(c: Core) {
    && Selected(c) && c.groupNo >= -1 && c.groupPos < GROUP && c.gSel < c.nGroups <= |c.rows|
    && (forall g :: 0 <= g < c.nGroups ==> c.rows[g].minLen >= 1)
    && c.N >= 1 && c.es >= -1 && c.nblock <= 100000 * c.blockSize100k
  }

  ghost predicate SaneCore(c: Core)
  {
    Always(c) &&
    match c.at
    case Magic(k) => 1 <= k <= 4
    case BlkHdr(k) => 1 <= k <= 6
    case BCrc(k) => 1 <= k <= 4
    case OrigPtr(k) => 1 <= k <= 3
    case Mapping1 => |c.inUse16| < 16
    case Mapping2 => |c.inUse16| == 16 && c.i < 16 && c.j < 16
    case Selector1 => 0 < c.nInUse <= 256
    case Selector2 => Grouped(c)
    case Selector3 => Selecting(c) && c.i < c.nSelectors
    case UndoSelectors => Selecting(c) && c.i == c.nSelectors
    case Coding1 => Coding(c)
    case Coding2 => InRow(c)
    case Coding3 => InRow(c)
    case MakeTables => Selected(c) && |c.lens| == c.nGroups
      && (forall t :: 0 <= t < |c.lens| ==> FullRow(c.lens[t], c.nInUse + 2))
    case Mtf(site, more) => Reading(c) && 1 <= c.zn <= LONGEST + 1 && site < 3
    case Decoded(site, sym) => Reading(c) && 0 <= sym < MAX_ALPHA && site < 3
    case EndHdr(k) => 2 <= k <= 6
    case CCrc(k) => 1 <= k <= 4
    case _ => true
  }

  /** What the bits asked for do, as far as no table has to be made and no list changed. */
  function StepCore(c: Core, v: nat): Core
    requires SaneCore(c)
  {
    match c.at
    case Mapping1 => StepMapping(c, v)
    case Mapping2 => StepMapping(c, v)
    case Selector1 => StepSelectors(c, v)
    case Selector2 => StepSelectors(c, v)
    case Selector3 => StepSelectors(c, v)
    case Coding1 => StepCoding(c, v)
    case Coding2 => StepCoding(c, v)
    case Coding3 => StepCoding(c, v)
    case Mtf(_, _) => StepMtf(c, v)
    case _ => StepHeader(c, v)
  }

  lemma {:induction false} SeekRowSane(c: Core, i: nat)
    requires Always(c) && |c.inUse16| == 16 && i <= 16
    ensures SaneCore(SeekRow(c, i))
    decreases 16 - i
  {
    hide Row;
    if i < 16 && !c.inUse16[i] { SeekRowSane(c, i + 1); }
  }

  lemma HeaderSane(c: Core, v: nat)
    requires SaneCore(c) && (c.at.Magic? || c.at.BlkHdr? || c.at.BCrc? || c.at.RandBit? || c.at.OrigPtr? || c.at.EndHdr?
                             || c.at.CCrc? || Terminal(c.at))
    ensures SaneCore(StepHeader(c, v))
  {
    hide Row;
  }

  lemma MappingSane(c: Core, v: nat)
    requires SaneCore(c) && (c.at.Mapping1? || c.at.Mapping2?)
    ensures SaneCore(StepMapping(c, v))
  {
    hide Row;
    match c.at
    case Mapping1 =>
      var c' := c.(inUse16 := c.inUse16 + [v == 1]);
      if |c'.inUse16| == 16 { SeekRowSane(c'.(inUse := NoneUsed()), 0); }
    case Mapping2 =>
      var c' := if v == 1 then c.(inUse := c.inUse[c.i * 16 + c.j := true]) else c;
      if c.j + 1 >= 16 { SeekRowSane(c', c.i + 1); }
  }

  lemma SelectorsSane(c: Core, v: nat)
    requires SaneCore(c) && (c.at.Selector1? || c.at.Selector2? || c.at.Selector3?)
    ensures SaneCore(StepSelectors(c, v))
  {
    hide Row;
  }

  lemma CodingSane(c: Core, v: nat)
    requires SaneCore(c) && (c.at.Coding1? || c.at.Coding2? || c.at.Coding3?)
    ensures SaneCore(StepCoding(c, v))
  {
    hide Row;
  }

  lemma MtfSane(c: Core, v: nat)
    requires SaneCore(c) && c.at.Mtf?
    ensures SaneCore(StepMtf(c, v))
  {
  }

  lemma StepCoreSane(c: Core, v: nat)
    requires SaneCore(c)
    ensures SaneCore(StepCore(c, v))
  {
    hide StepHeader, StepMapping, StepSelectors, StepCoding, StepMtf, Always;
    match c.at
    case Mapping1 => MappingSane(c, v);
    case Mapping2 => MappingSane(c, v);
    case Selector1 => SelectorsSane(c, v);
    case Selector2 => SelectorsSane(c, v);
    case Selector3 => SelectorsSane(c, v);
    case Coding1 => CodingSane(c, v);
    case Coding2 => CodingSane(c, v);
    case Coding3 => CodingSane(c, v);
    case Mtf(_, _) => MtfSane(c, v);
    case Allocate => Nothing(c, v);
    case MakeMaps => Nothing(c, v);
    case UndoSelectors => Nothing(c, v);
    case MakeTables => Nothing(c, v);
    case Decoded(_, _) => Nothing(c, v);
    case _ => HeaderSane(c, v);
  }

  lemma Nothing(c: Core, v: nat)
    requires c.at.Allocate? || c.at.MakeMaps? || c.at.UndoSelectors? || c.at.MakeTables? || c.at.Decoded?
    ensures StepHeader(c, v) == c
  {
  }
}
