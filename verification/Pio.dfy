/**
 The programmable I/O state machines of the RP2040 as far as the programs here use them
 (RP2040 datasheet, sections 3.4 and 3.5): the instruction words and what a state machine
 does in one of its clock cycles.
 */
module Pio {

  datatype Instr =
    | JmpX(addr: nat) | JmpY(addr: nat)
    | WaitIrq(flag: nat)
    | OutPins(count: nat)
    | Pull
    | MovXOsr | MovYOsr | MovXY
    | SetPins(value: nat) | SetY(value: nat)
    | Irq(flag: nat)
    | Undefined

  datatype Side = NoSide | Side(value: nat)

  datatype Op = Op(instr: Instr, delay: nat, side: Side)

  // ----- instruction words -----

  /** Bits 15 to 13 and 7 to 0. */
  function DecodeInstr(opcode: nat, arg: nat): Instr {
    var high, low := arg / 32, arg % 32;
    if opcode == 0 && high == 2 then JmpX(low)
    else if opcode == 0 && high == 4 then JmpY(low)
    else if opcode == 1 && high == 6 then WaitIrq(low)
    else if opcode == 3 && high == 0 then OutPins(low)
    else if opcode == 4 && arg == 0xA0 then Pull
    else if opcode == 5 && arg == 0x27 then MovXOsr
    else if opcode == 5 && arg == 0x47 then MovYOsr
    else if opcode == 5 && arg == 0x22 then MovXY
    else if opcode == 6 && high == 0 then Irq(low)
    else if opcode == 7 && high == 0 then SetPins(low)
    else if opcode == 7 && high == 2 then SetY(low)
    else Undefined
  }

  /** An instruction word. Bits 12 to 8 are the delay, or with an optional side-set bit an
      enable bit, the bit itself and a shorter delay. */
  function Decode(word: nat, sideSet: bool): Op {
    var field, instr := word / 256 % 32, DecodeInstr(word / 8192, word % 256);
    if !sideSet then Op(instr, field, NoSide)
    else Op(instr, field % 8, if field / 16 == 1 then Side(field / 8 % 2) else NoSide)
  }

  /** A program as loaded: instruction words, wrap addresses, whether there is a side-set bit. */
  datatype Program = Program(words: seq<nat>, wrapTarget: nat, wrap: nat, sideSet: bool)

  // include/hsync.pio.h
  const HSYNC := Program([0x80a0, 0xa027, 0x0042, 0xff00, 0xff00, 0xff00, 0xff01, 0xec01, 0xc100], 1, 8, false)

  // include/vsync.pio.h
  const VSYNC := Program([0x80a0, 0xa027, 0x20c0, 0xc001, 0x0042, 0xe049, 0x20c0, 0x0086, 0xe000, 0x20c0, 0x20c0,
                          0xe05f, 0x38c0, 0x008c], 1, 13, true)

  // include/rgb.pio.h
  const RGB := Program([0x80a0, 0xa047, 0xe000, 0xa022, 0x23c1, 0x80a0, 0x6403, 0x6203, 0x0045], 2, 8, false)

  /** The hsync program, decoded. */
  function Hsync(pc: nat): Op {
    if pc == 0 then Op(Pull, 0, NoSide)
    else if pc == 1 then Op(MovXOsr, 0, NoSide)
    else if pc == 2 then Op(JmpX(2), 0, NoSide)
    else if pc <= 5 then Op(SetPins(0), 31, NoSide)
    else if pc == 6 then Op(SetPins(1), 31, NoSide)
    else if pc == 7 then Op(SetPins(1), 12, NoSide)
    else Op(Irq(0), 1, NoSide)
  }

  /** The vsync program, decoded. */
  function Vsync(pc: nat): Op {
    if pc == 0 then Op(Pull, 0, NoSide)
    else if pc == 1 then Op(MovXOsr, 0, NoSide)
    else if pc == 3 then Op(Irq(1), 0, NoSide)
    else if pc == 4 then Op(JmpX(2), 0, NoSide)
    else if pc == 5 then Op(SetY(9), 0, NoSide)
    else if pc == 7 then Op(JmpY(6), 0, NoSide)
    else if pc == 8 then Op(SetPins(0), 0, NoSide)
    else if pc == 11 then Op(SetY(31), 0, NoSide)
    else if pc == 12 then Op(WaitIrq(0), 0, Side(1))
    else if pc == 13 then Op(JmpY(12), 0, NoSide)
    else Op(WaitIrq(0), 0, NoSide)
  }

  /** The rgb program, decoded. */
  function Rgb(pc: nat): Op {
    if pc == 0 || pc == 5 then Op(Pull, 0, NoSide)
    else if pc == 1 then Op(MovYOsr, 0, NoSide)
    else if pc == 2 then Op(SetPins(0), 0, NoSide)
    else if pc == 3 then Op(MovXY, 0, NoSide)
    else if pc == 4 then Op(WaitIrq(1), 3, NoSide)
    else if pc == 6 then Op(OutPins(3), 4, NoSide)
    else if pc == 7 then Op(OutPins(3), 2, NoSide)
    else Op(JmpX(5), 0, NoSide)
  }

  lemma HsyncDecoded(pc: nat)
    requires pc < |HSYNC.words|
    ensures Decode(HSYNC.words[pc], HSYNC.sideSet) == Hsync(pc)
  {
    if pc == 0 {} else if pc == 1 {} else if pc == 2 {} else if pc == 3 {} else if pc == 4 {} else if pc == 5 {}
    else if pc == 6 {} else if pc == 7 {} else {}
  }

  lemma VsyncDecoded(pc: nat)
    requires pc < |VSYNC.words|
    ensures Decode(VSYNC.words[pc], VSYNC.sideSet) == Vsync(pc)
  {
    if pc < 4 { VsyncDecodedTo4(pc); } else if pc < 7 { VsyncDecodedTo7(pc); }
    else if pc < 11 { VsyncDecodedTo11(pc); } else { VsyncDecodedTo14(pc); }
  }

  lemma VsyncDecodedTo4(pc: nat)
    requires pc < 4
    ensures Decode(VSYNC.words[pc], VSYNC.sideSet) == Vsync(pc)
  {
    if pc == 0 {} else if pc == 1 {} else if pc == 2 {} else {}
  }

  lemma VsyncDecodedTo7(pc: nat)
    requires 4 <= pc < 7
    ensures Decode(VSYNC.words[pc], VSYNC.sideSet) == Vsync(pc)
  {
    if pc == 4 {} else if pc == 5 {} else {}
  }

  lemma VsyncDecodedTo11(pc: nat)
    requires 7 <= pc < 11
    ensures Decode(VSYNC.words[pc], VSYNC.sideSet) == Vsync(pc)
  {
    if pc == 7 {} else if pc == 8 {} else if pc == 9 {} else {}
  }

  lemma VsyncDecodedTo14(pc: nat)
    requires 11 <= pc < |VSYNC.words|
    ensures Decode(VSYNC.words[pc], VSYNC.sideSet) == Vsync(pc)
  {
    if pc == 11 {} else if pc == 12 {} else {}
  }

  lemma RgbDecoded(pc: nat)
    requires pc < |RGB.words|
    ensures Decode(RGB.words[pc], RGB.sideSet) == Rgb(pc)
  {
    if pc == 0 {} else if pc == 1 {} else if pc == 2 {} else if pc == 3 {} else if pc == 4 {} else if pc == 5 {}
    else if pc == 6 {} else if pc == 7 {} else {}
  }

  // ----- a clock cycle -----

  /** A state machine: program counter, scratch registers, output shift register, delay
      cycles still to go, and the level of its pins. */
  datatype Sm = Sm(pc: nat, x: nat, y: nat, osr: nat, delay: nat, pins: nat)

  /** The two interrupt flags in use. */
  datatype Flags = Flags(irq0: bool, irq1: bool)

  predicate IsSet(flags: Flags, flag: nat) { if flag == 0 then flags.irq0 else flags.irq1 }

  /** What a cycle does to the flags. */
  datatype Effect = Quiet | Raises(flag: nat) | Clears(flag: nat)

  datatype Cycle = Cycle(sm: Sm, effect: Effect)

  /** 32-bit decrement. */
  function Decrement(x: nat): nat { if x == 0 then 0xFFFF_FFFF else x - 1 }

  function ShiftOut(osr: nat, count: nat): (nat, nat) {
    if count == 3 then (osr % 8, osr / 8) else (0, osr)
  }

  /** One cycle of a machine that is at `op`: a delay cycle, a stalled wait, or the
      instruction. `word` is the word the transmit FIFO offers. A side-set takes effect
      even while the instruction stalls; the flag waited for is cleared. */
  function Execute(op: Op, wrapTarget: nat, wrap: nat, sm0: Sm, flags: Flags, word: nat): Cycle {
    if sm0.delay > 0 then Cycle(sm0.(delay := sm0.delay - 1), Quiet) else
      var sm := sm0.(pins := if op.side.Side? then op.side.value else sm0.pins);
      var done := sm.(pc := if sm.pc == wrap then wrapTarget else sm.pc + 1, delay := op.delay);
      match op.instr
      case JmpX(a) => Cycle((if sm.x != 0 then sm.(pc := a, delay := op.delay) else done).(x := Decrement(sm.x)), Quiet)
      case JmpY(a) => Cycle((if sm.y != 0 then sm.(pc := a, delay := op.delay) else done).(y := Decrement(sm.y)), Quiet)
      case WaitIrq(f) => if IsSet(flags, f) then Cycle(done, Clears(f)) else Cycle(sm, Quiet)
      case OutPins(n) => Cycle(done.(pins := ShiftOut(sm.osr, n).0, osr := ShiftOut(sm.osr, n).1), Quiet)
      case Pull => Cycle(done.(osr := word), Quiet)
      case MovXOsr => Cycle(done.(x := sm.osr), Quiet)
      case MovYOsr => Cycle(done.(y := sm.osr), Quiet)
      case MovXY => Cycle(done.(x := sm.y), Quiet)
      case SetPins(v) => Cycle(done.(pins := v), Quiet)
      case SetY(v) => Cycle(done.(y := v), Quiet)
      case Irq(f) => Cycle(done, Raises(f))
      case Undefined => Cycle(sm, Quiet)
  }

  /** One cycle of a state machine that runs a program. */
  function RunCycle(p: Program, sm: Sm, flags: Flags, word: nat): Cycle
    requires sm.pc < |p.words|
  {
    Execute(Decode(p.words[sm.pc], p.sideSet), p.wrapTarget, p.wrap, sm, flags, word)
  }
}
