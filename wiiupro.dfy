/**
 * The Wii U Pro controller HID report decoder.
 *
 * A raw input report arrives as a byte array.  The handler inverts the three
 * button bytes (the controller reports a pressed button as a cleared bit),
 * clears the decoded state and sets each of the 17 button flags from one bit.
 * `GetButtons` packs the flags into the frontend's 64-bit button mask, in
 * which each button owns the bit given by its joypad id.
 */
module WiiUPro {
  import opened Bits

  /** An unsigned 8-bit report byte. */
  type byte = bv8

  /** `v ^= 0xFF`: every bit flipped. */
  function Invert(v: byte): (r: byte)
    ensures r & v == 0 && r | v == 0xFF
  {
    v ^ 0xFF
  }

  /** `(v & mask) ? 1 : 0`: some bit of the mask is set in v. */
  predicate HasBit(v: byte, mask: byte)
  {
    v & mask != 0
  }

  /** The eight single-bit masks of a byte. */
  predicate SingleBitMask(mask: byte)
  {
    mask in {0x01, 0x02, 0x04, 0x08, 0x10, 0x20, 0x40, 0x80}
  }

  /** A bit position of the 64-bit button mask. */
  type BitIndex = i: nat | i < 64

  /** The decoded buttons (struct wiiupro_buttons). */
  datatype Buttons = Buttons(
    a: bool, b: bool, x: bool, y: bool,
    l: bool, r: bool, zl: bool, zr: bool,
    minus: bool, plus: bool, l3: bool, r3: bool, home: bool,
    left: bool, right: bool, up: bool, down: bool)

  const NoButtons := Buttons(false, false, false, false, false, false, false, false,
                             false, false, false, false, false, false, false, false, false)

  /** The decoded report (struct wiiupro): four hat bytes and the buttons. */
  datatype Report = Report(hatvalue: seq<byte>, btn: Buttons)

  /** The all-zero report that clearing the decoded state produces. */
  const ClearedReport := Report([0, 0, 0, 0], NoButtons)

  /** The per-device state the driver keeps (the `data` member of hidpad_wiiupro_data). */
  class Device {
    var data: Report
  }

  /** The 17 buttons, one per field of Buttons. */
  datatype ButtonId =
    | A | B | X | Y | L | R | ZL | ZR | Minus | Plus | L3 | R3 | Home
    | Left | Right | Up | Down

  function Pressed(btn: Buttons, k: ButtonId): bool
  {
    match k
    case A => btn.a
    case B => btn.b
    case X => btn.x
    case Y => btn.y
    case L => btn.l
    case R => btn.r
    case ZL => btn.zl
    case ZR => btn.zr
    case Minus => btn.minus
    case Plus => btn.plus
    case L3 => btn.l3
    case R3 => btn.r3
    case Home => btn.home
    case Left => btn.left
    case Right => btn.right
    case Up => btn.up
    case Down => btn.down
  }

  /** The report byte that carries button k. */
  function ReportByte(k: ButtonId): nat
  {
    match k
    case L | R | Minus | Plus | Home | Right | Down => 0x0C
    case A | B | X | Y | ZL | ZR | Left | Up => 0x0D
    case L3 | R3 => 0x0E
  }

  /** The bit of ReportByte(k) that carries button k. */
  function ReportMask(k: ButtonId): byte
  {
    match k
    case B => 0x40
    case A => 0x10
    case Y => 0x20
    case X => 0x08
    case L => 0x20
    case R => 0x02
    case ZL => 0x80
    case ZR => 0x04
    case Minus => 0x10
    case Plus => 0x04
    case L3 => 0x02
    case R3 => 0x01
    case Left => 0x02
    case Right => 0x80
    case Up => 0x01
    case Down => 0x40
    case Home => 0x08
  }

  /** Every button is carried by one of the three button bytes, as a single bit. */
  lemma ReportBitsAreSingleBits(k: ButtonId)
    ensures 0x0C <= ReportByte(k) <= 0x0E
    ensures SingleBitMask(ReportMask(k))
  {
  }

  /** No two buttons share a report bit. */
  lemma ReportBitsDistinct(k1: ButtonId, k2: ButtonId)
    requires ReportByte(k1) == ReportByte(k2) && ReportMask(k1) == ReportMask(k2)
    ensures k1 == k2
  {
  }

  /**
   * The buttons set from the three button bytes after inversion: each flag is
   * the assigned bit of its byte.
   */
  function ButtonsOf(c: byte, d: byte, e: byte): Buttons
  {
    Buttons(
      a := HasBit(d, 0x10), b := HasBit(d, 0x40), x := HasBit(d, 0x08), y := HasBit(d, 0x20),
      l := HasBit(c, 0x20), r := HasBit(c, 0x02), zl := HasBit(d, 0x80), zr := HasBit(d, 0x04),
      minus := HasBit(c, 0x10), plus := HasBit(c, 0x04),
      l3 := HasBit(e, 0x02), r3 := HasBit(e, 0x01), home := HasBit(c, 0x08),
      left := HasBit(d, 0x02), right := HasBit(c, 0x80), up := HasBit(d, 0x01), down := HasBit(c, 0x40))
  }

  /** The one of the three button bytes c, d, e (0x0C, 0x0D, 0x0E) that carries button k. */
  function Carrier(c: byte, d: byte, e: byte, k: ButtonId): byte
  {
    if ReportByte(k) == 0x0C then c else if ReportByte(k) == 0x0D then d else e
  }

  /**
   * The buttons that the raw (not yet inverted) button bytes 0x0C, 0x0D and
   * 0x0E of a report decode to; no other byte of the report takes part.
   */
  function Decode(c: byte, d: byte, e: byte): Buttons
  {
    ButtonsOf(Invert(c), Invert(d), Invert(e))
  }

  /** The buttons of a whole report. */
  function DecodeReport(packet: seq<byte>): Buttons
    requires |packet| >= 0x0F
  {
    Decode(packet[0x0C], packet[0x0D], packet[0x0E])
  }

  /** Inverting a byte flips each of its bits. */
  lemma InvertedBit(v: byte, mask: byte)
    requires SingleBitMask(mask)
    ensures HasBit(Invert(v), mask) <==> !HasBit(v, mask)
  {
  }

  /** The buttons in which the flag of each button k is bit(k). */
  function ButtonsWith(bit: ButtonId -> bool): Buttons
  {
    Buttons(
      a := bit(A), b := bit(B), x := bit(X), y := bit(Y),
      l := bit(L), r := bit(R), zl := bit(ZL), zr := bit(ZR),
      minus := bit(Minus), plus := bit(Plus), l3 := bit(L3), r3 := bit(R3), home := bit(Home),
      left := bit(Left), right := bit(Right), up := bit(Up), down := bit(Down))
  }

  /** Button k of ButtonsWith(bit) reads bit(k). */
  lemma PressedButtonsWith(bit: ButtonId -> bool, k: ButtonId)
    ensures Pressed(ButtonsWith(bit), k) == bit(k)
  {
  }

  /**
   * The 17 assignments of the handler set every button from the byte and
   * the bit that the per-button table (ReportByte, ReportMask) gives.
   */
  lemma ButtonsOfTable(c: byte, d: byte, e: byte)
    ensures ButtonsOf(c, d, e) == ButtonsWith(k => HasBit(Carrier(c, d, e, k), ReportMask(k)))
  {
  }

  /** So each button of ButtonsOf reads its own bit of its own byte. */
  lemma ButtonsOfBit(c: byte, d: byte, e: byte, k: ButtonId)
    ensures Pressed(ButtonsOf(c, d, e), k) <==> HasBit(Carrier(c, d, e, k), ReportMask(k))
  {
    ButtonsOfTable(c, d, e);
    PressedButtonsWith(k => HasBit(Carrier(c, d, e, k), ReportMask(k)), k);
  }

  /** A button reads as pressed exactly when its bit in the raw report is clear. */
  lemma DecodePressed(packet: seq<byte>, k: ButtonId)
    requires |packet| >= 0x0F
    ensures Pressed(DecodeReport(packet), k) <==> !HasBit(packet[ReportByte(k)], ReportMask(k))
  {
    ReportBitsAreSingleBits(k);
    var c, d, e := packet[0x0C], packet[0x0D], packet[0x0E];
    ButtonsOfBit(Invert(c), Invert(d), Invert(e), k);
    assert Carrier(Invert(c), Invert(d), Invert(e), k) == Invert(packet[ReportByte(k)]);
    InvertedBit(packet[ReportByte(k)], ReportMask(k));
  }

  /**
   * hidpad_wiiupro_packet_handler: a null device is ignored; otherwise the three
   * button bytes are inverted in place, the decoded state is cleared and every
   * button flag is set from its bit of the inverted bytes.
   */
  method PacketHandler(device: Device?, packet: array<byte>)
    requires device != null ==> packet.Length >= 0x0F
    modifies device, packet
    ensures device == null ==> packet[..] == old(packet[..])
    ensures device != null ==>
      && packet[0x0C] == Invert(old(packet[0x0C]))
      && packet[0x0D] == Invert(old(packet[0x0D]))
      && packet[0x0E] == Invert(old(packet[0x0E]))
      && (forall i :: 0 <= i < packet.Length && i != 0x0C && i != 0x0D && i != 0x0E ==>
            packet[i] == old(packet[i]))
      && device.data == Report([0, 0, 0, 0], Decode(old(packet[0x0C]), old(packet[0x0D]), old(packet[0x0E])))
  {
    if device == null {
      return;
    }
    packet[0x0C] := Invert(packet[0x0C]);
    packet[0x0D] := Invert(packet[0x0D]);
    packet[0x0E] := Invert(packet[0x0E]);

    // The report is cleared, then every button flag is set from its bit
    // (ButtonsOf lists the assignments).
    device.data := ClearedReport.(btn := ButtonsOf(packet[0x0C], packet[0x0D], packet[0x0E]));

  }

  /**
   * The frontend's joypad ids (RETRO_DEVICE_ID_JOYPAD_* and RARCH_MENU_TOGGLE),
   * defined in headers outside this model, hence parameters.
   */
  datatype JoypadIds = JoypadIds(
    b: BitIndex, y: BitIndex, select: BitIndex, start: BitIndex,
    up: BitIndex, down: BitIndex, left: BitIndex, right: BitIndex,
    a: BitIndex, x: BitIndex, l: BitIndex, r: BitIndex,
    l2: BitIndex, r2: BitIndex, l3: BitIndex, r3: BitIndex,
    menuToggle: BitIndex)

  /** The mask bit that button k drives. */
  function MaskBit(ids: JoypadIds, k: ButtonId): BitIndex
  {
    match k
    case R3 => ids.r3
    case L3 => ids.l3
    case Plus => ids.start
    case Minus => ids.select
    case ZR => ids.r2
    case ZL => ids.l2
    case R => ids.r
    case L => ids.l
    case X => ids.x
    case A => ids.a
    case B => ids.b
    case Y => ids.y
    case Left => ids.left
    case Right => ids.right
    case Up => ids.up
    case Down => ids.down
    case Home => ids.menuToggle
  }

  /** The ids are pairwise distinct, so that every button drives a bit of its own. */
  ghost predicate DistinctIds(ids: JoypadIds)
  {
    forall k1, k2 :: MaskBit(ids, k1) == MaskBit(ids, k2) ==> k1 == k2
  }

  /** The order in which the buttons are OR-ed into the mask. */
  const PackOrder: seq<ButtonId> :=
    [R3, L3, Plus, Minus, ZR, ZL, R, L, X, A, B, Y, Left, Right, Up, Down, Home]

  lemma PackOrderComplete(k: ButtonId)
    ensures k in PackOrder
  {
  }

  /** The contribution of one button: `pressed ? (UINT64_C(1) << s) : 0`. */
  function Flag(pressed: bool, s: BitIndex): (f: nat)
    ensures f < Two64
  {
    Pow2Monotone(s + 1, 64);
    Pow2Is64();
    if pressed then Pow2(s) else 0
  }

  /** A button's contribution has its bit set, when pressed, and no other. */
  lemma FlagBit(pressed: bool, s: BitIndex, i: BitIndex)
    ensures BitSet(Flag(pressed, s), i) <==> pressed && s == i
  {
    if pressed {
      Pow2Bit(s, i);
    } else {
      ZeroBit(i);
    }
  }

  /** Some pressed button of ks drives bit i, as a recursion over ks. */
  ghost predicate Drives(btn: Buttons, ids: JoypadIds, ks: seq<ButtonId>, i: BitIndex)
  {
    ks != [] &&
    (Drives(btn, ids, ks[..|ks| - 1], i) || (Pressed(btn, ks[|ks| - 1]) && MaskBit(ids, ks[|ks| - 1]) == i))
  }

  /**
   * The mask obtained by starting from 0 and OR-ing in, for each button of ks
   * in turn, its bit when it is pressed; it stays a uint64_t value.
   */
  function Pack(btn: Buttons, ids: JoypadIds, ks: seq<ButtonId>): (mask: nat)
    ensures mask < Two64
  {
    if ks == [] then 0
    else
      var last := ks[|ks| - 1];
      var front := Pack(btn, ids, ks[..|ks| - 1]);
      var flag := Flag(Pressed(btn, last), MaskBit(ids, last));
      Pow2Is64();
      OrBound(front, flag, 64);
      Or(front, flag)
  }

  /** The bits of the packed mask are those that the recursion Drives describes. */
  lemma {:induction false} PackDrives(btn: Buttons, ids: JoypadIds, ks: seq<ButtonId>, i: BitIndex)
    ensures BitSet(Pack(btn, ids, ks), i) <==> Drives(btn, ids, ks, i)
  {
    if ks == [] {
      ZeroBit(i);
    } else {
      var last := ks[|ks| - 1];
      var front := ks[..|ks| - 1];
      PackDrives(btn, ids, front, i);
      OrBit(Pack(btn, ids, front), Flag(Pressed(btn, last), MaskBit(ids, last)), i);
      FlagBit(Pressed(btn, last), MaskBit(ids, last), i);
    }
  }

  /** Drives holds exactly when some pressed button of ks has bit i. */
  lemma {:induction false} DrivesSome(btn: Buttons, ids: JoypadIds, ks: seq<ButtonId>, i: BitIndex)
    ensures Drives(btn, ids, ks, i) <==> exists k :: k in ks && MaskBit(ids, k) == i && Pressed(btn, k)
  {
    if ks != [] {
      var front, last := ks[..|ks| - 1], ks[|ks| - 1];
      assert ks == front + [last];
      DrivesSome(btn, ids, front, i);
    }
  }

  /** A bit of the packed mask is set exactly when some pressed button of ks drives it. */
  lemma PackBits(btn: Buttons, ids: JoypadIds, ks: seq<ButtonId>, i: BitIndex)
    ensures BitSet(Pack(btn, ids, ks), i) <==> exists k :: k in ks && MaskBit(ids, k) == i && Pressed(btn, k)
  {
    PackDrives(btn, ids, ks, i);
    DrivesSome(btn, ids, ks, i);
  }

  /** The mask packed in source order: a bit per pressed button and no other bits. */
  lemma PackOrderBits(btn: Buttons, ids: JoypadIds)
    ensures forall i: BitIndex :: BitSet(Pack(btn, ids, PackOrder), i) ==>
      exists k :: MaskBit(ids, k) == i && Pressed(btn, k)
    ensures DistinctIds(ids) ==> forall k ::
      BitSet(Pack(btn, ids, PackOrder), MaskBit(ids, k)) <==> Pressed(btn, k)
  {
    forall i: BitIndex | BitSet(Pack(btn, ids, PackOrder), i)
      ensures exists k :: MaskBit(ids, k) == i && Pressed(btn, k)
    {
      PackBits(btn, ids, PackOrder, i);
    }
    if DistinctIds(ids) {
      forall k
        ensures BitSet(Pack(btn, ids, PackOrder), MaskBit(ids, k)) <==> Pressed(btn, k)
      {
        PackBits(btn, ids, PackOrder, MaskBit(ids, k));
        PackOrderComplete(k);
      }
    }
  }

  /**
   * hidpad_wiiupro_get_buttons: 0 for a null device; otherwise a bit is set
   * only when it belongs to a pressed button, and with distinct ids the bit of
   * every button is set exactly when that button is pressed.
   */
  function GetButtons(device: Device?, ids: JoypadIds): (mask: u64)
    reads device
    ensures device == null ==> mask == 0
    ensures device != null ==> forall i: BitIndex :: BitSet(mask, i) ==>
      exists k :: MaskBit(ids, k) == i && Pressed(device.data.btn, k)
    ensures device != null && DistinctIds(ids) ==> forall k ::
      BitSet(mask, MaskBit(ids, k)) <==> Pressed(device.data.btn, k)
  {
    if device == null then 0
    else
      PackOrderBits(device.data.btn, ids);
      Pack(device.data.btn, ids, PackOrder)
  }

  /** hidpad_wiiupro_get_axis: the axes are not decoded; every axis reads 0. */
  function GetAxis(device: Device?, axis: nat): (value: int)
    ensures value == 0
  {
    0
  }

  /**
   * End to end: after a report has been handled, the mask bit of a button is
   * set exactly when that button's bit in the raw report was clear.
   */
  lemma MaskFromRawReport(packet: seq<byte>, ids: JoypadIds, k: ButtonId)
    requires |packet| >= 0x0F && DistinctIds(ids)
    ensures BitSet(Pack(DecodeReport(packet), ids, PackOrder), MaskBit(ids, k)) <==>
      !HasBit(packet[ReportByte(k)], ReportMask(k))
  {
    PackOrderBits(DecodeReport(packet), ids);
    DecodePressed(packet, k);
  }
}
