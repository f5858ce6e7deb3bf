/**
 What the keys and their modifiers mean: which key types a character, and which modifiers are on after
 any scancodes, told from the scancodes alone.
 */
module KeyTable {
  import opened Types
  import opened Keyboard
  import opened Echo

  // ----- the key of each character, in set 1 of the scancodes -----

  datatype Stroke = Low(code: nat) | Up(code: nat)

  function LetterKey(c: char): nat {
    match c
    case 'a' => 0x1E case 'b' => 0x30 case 'c' => 0x2E case 'd' => 0x20 case 'e' => 0x12 case 'f' => 0x21
    case 'g' => 0x22 case 'h' => 0x23 case 'i' => 0x17 case 'j' => 0x24 case 'k' => 0x25 case 'l' => 0x26
    case 'm' => 0x32 case 'n' => 0x31 case 'o' => 0x18 case 'p' => 0x19 case 'q' => 0x10 case 'r' => 0x13
    case 's' => 0x1F case 't' => 0x14 case 'u' => 0x16 case 'v' => 0x2F case 'w' => 0x11 case 'x' => 0x2D
    case 'y' => 0x15 case 'z' => 0x2C
    case _ => 0
  }

  function SymbolStroke(c: char): Stroke {
    match c
    case '1' => Low(0x02) case '!' => Up(0x02) case '2' => Low(0x03) case '@' => Up(0x03) case '3' => Low(0x04)
    case '#' => Up(0x04) case '4' => Low(0x05) case '$' => Up(0x05) case '5' => Low(0x06) case '%' => Up(0x06)
    case '6' => Low(0x07) case '^' => Up(0x07) case '7' => Low(0x08) case '&' => Up(0x08) case '8' => Low(0x09)
    case '*' => Up(0x09) case '9' => Low(0x0A) case '(' => Up(0x0A) case '0' => Low(0x0B) case ')' => Up(0x0B)
    case '-' => Low(0x0C) case '_' => Up(0x0C) case '=' => Low(0x0D) case '+' => Up(0x0D) case '[' => Low(0x1A)
    case '{' => Up(0x1A) case ']' => Low(0x1B) case '}' => Up(0x1B) case ';' => Low(0x27) case ':' => Up(0x27)
    case '\'' => Low(0x28) case '"' => Up(0x28) case '`' => Low(0x29) case '~' => Up(0x29)
    case '\\' => Low(0x2B) case '|' => Up(0x2B) case ',' => Low(0x33) case '<' => Up(0x33) case '.' => Low(0x34)
    case '>' => Up(0x34) case '/' => Low(0x35) case '?' => Up(0x35) case ' ' => Low(0x39)
    case _ => Low(0)
  }

  /** The key of a character, and whether it is typed with shift. */
  function StrokeOf(c: char): Stroke {
    if 'a' <= c <= 'z' then Low(LetterKey(c))
    else if 'A' <= c <= 'Z' then Up(LetterKey((c as int + 32) as char))
    else SymbolStroke(c)
  }

  /** The keys of the four rows of the keyboard. */
  predicate InRows(scode: nat) {
    0x02 <= scode <= 0x0D || 0x10 <= scode <= 0x1B || 0x1E <= scode <= 0x29 || 0x2B <= scode <= 0x35
  }

  predicate TypedBy(c: char, stroke: Stroke) {
    ' ' <= c <= '~' && StrokeOf(c) == stroke
  }

  lemma DigitRow(scode: nat)
    requires 0x02 <= scode <= 0x0D
    ensures TypedBy(Plain(scode), Low(scode))
  {
  }

  lemma DigitRowShifted(scode: nat)
    requires 0x02 <= scode <= 0x0D
    ensures TypedBy(Shifted(scode), Up(scode))
  {
  }

  lemma TopRow(scode: nat)
    requires 0x10 <= scode <= 0x1B
    ensures TypedBy(Plain(scode), Low(scode))
  {
  }

  lemma TopRowShifted(scode: nat)
    requires 0x10 <= scode <= 0x1B
    ensures TypedBy(Shifted(scode), Up(scode))
  {
  }

  lemma HomeRow(scode: nat)
    requires 0x1E <= scode <= 0x29
    ensures TypedBy(Plain(scode), Low(scode))
  {
  }

  lemma HomeRowShifted(scode: nat)
    requires 0x1E <= scode <= 0x29
    ensures TypedBy(Shifted(scode), Up(scode))
  {
  }

  lemma BottomRow(scode: nat)
    requires 0x2B <= scode <= 0x35
    ensures TypedBy(Plain(scode), Low(scode))
  {
  }

  lemma BottomRowShifted(scode: nat)
    requires 0x2B <= scode <= 0x35
    ensures TypedBy(Shifted(scode), Up(scode))
  {
  }

  lemma NoRow(scode: nat)
    requires !InRows(scode)
    ensures Plain(scode) == Shifted(scode) == if scode == 0x37 then '*' else if scode == 0x39 then ' ' else '\0'
  {
  }

  /** Every key of the four rows types two characters of its own, and of the others only the second '*' and the
      space bar type any. */
  lemma KeyTypes(mode: nat, scode: nat)
    requires mode < 2
    ensures var c := ScancodeMap(mode, scode) as char;
      if InRows(scode) then TypedBy(c, if mode == 0 then Low(scode) else Up(scode))
      else c == if scode == 0x37 then '*' else if scode == 0x39 then ' ' else '\0'
  {
    if 0x02 <= scode <= 0x0D {
      DigitRow(scode);
      DigitRowShifted(scode);
    } else if 0x10 <= scode <= 0x1B {
      TopRow(scode);
      TopRowShifted(scode);
    } else if 0x1E <= scode <= 0x29 {
      HomeRow(scode);
      HomeRowShifted(scode);
    } else if 0x2B <= scode <= 0x35 {
      BottomRow(scode);
      BottomRowShifted(scode);
    } else {
      NoRow(scode);
    }
  }

  predicate IsSmall(c: char) {
    'a' <= c <= 'z'
  }

  lemma CapsRow(scode: nat)
    ensures Caps(scode) == if IsSmall(Plain(scode)) then Shifted(scode) else Plain(scode)
  {
  }

  lemma ShiftedCapsRow(scode: nat)
    ensures ShiftedCaps(scode) == if IsSmall(Plain(scode)) || scode == 0x2B then Plain(scode) else Shifted(scode)
  {
  }

  lemma LetterRow(scode: nat)
    ensures IsSmall(Plain(scode)) ==> Shifted(scode) as int == Plain(scode) as int - 32
  {
  }

  /** A letter is a capital exactly if one of caps lock and shift is on; other keys mind shift alone, except
      that caps lock takes the '|' away. */
  lemma CapsAndShift(caps: bool, shift: bool, scode: nat)
    ensures var c, plain := ScancodeMap((if caps then 2 else 0) + (if shift then 1 else 0), scode), ScancodeMap(0, scode);
      if IsSmall(plain as char) then c == if caps != shift then plain - 32 else plain
      else c == ScancodeMap(if shift && !(caps && scode == 0x2B) then 1 else 0, scode)
  {
    CapsRow(scode);
    ShiftedCapsRow(scode);
    LetterRow(scode);
  }

  // ----- modifiers -----

  /** The last of some scancodes that is in a set, or 0. */
  function Last(codes: seq<nat>, among: set<nat>): nat {
    if codes == [] then 0
    else if codes[|codes| - 1] in among then codes[|codes| - 1]
    else Last(codes[..|codes| - 1], among)
  }

  /** Either shift key down is shift, and either one up ends it. */
  predicate ShiftHeld(codes: seq<nat>) {
    Last(codes, {0x2A, 0x36, 0xAA, 0xB6}) in {0x2A, 0x36}
  }

  predicate AltHeld(codes: seq<nat>) {
    Last(codes, {0x38, 0xB8}) == 0x38
  }

  /** Control serves for one L or C. */
  predicate ControlHeld(codes: seq<nat>) {
    Last(codes, {0x1D, 0x9D, 0x26, 0x2E}) == 0x1D
  }

  /** Every press of caps lock turns it over. */
  predicate CapsOn(codes: seq<nat>) {
    codes != [] && ((codes[|codes| - 1] == 0x3A) != CapsOn(codes[..|codes| - 1]))
  }

  const AT_BOOT := Modifiers(0, false, false, false)

  /** The modifiers that the driver keeps are those of the scancodes so far. */
  lemma {:induction false} ModifiersAre(codes: seq<nat>)
    ensures ModifiersAfter(AT_BOOT, codes)
         == Modifiers((if CapsOn(codes) then 2 else 0) + (if ShiftHeld(codes) then 1 else 0),
                      CapsOn(codes), ControlHeld(codes), AltHeld(codes))
  {
    if codes != [] {
      ModifiersAre(codes[..|codes| - 1]);
    }
  }

  /** After any scancodes a key of the four rows types its character, by caps lock and shift, and Alt with a function
      key switches terminals, and Control-C halts. */
  lemma KeyMeans(codes: seq<nat>, scode: nat)
    ensures var m := ModifiersAfter(AT_BOOT, codes);
      && m.mode < 4
      && (IsSmall(Plain(scode)) ==>
            ScancodeMap(m.mode, scode) == Plain(scode) as int - if CapsOn(codes) != ShiftHeld(codes) then 32 else 0)
      && (!IsSmall(Plain(scode)) && !(CapsOn(codes) && scode == 0x2B) ==>
            ScancodeMap(m.mode, scode) == ScancodeMap(if ShiftHeld(codes) then 1 else 0, scode))
      && KeyAction(m, scode)
         == if AltHeld(codes) && 0x3B <= scode <= 0x3D then LaunchTerm(scode - 0x3B)
            else if ControlHeld(codes) && scode == 0x2E then Halt
            else Nothing
  {
    ModifiersAre(codes);
    CapsAndShift(CapsOn(codes), ShiftHeld(codes), scode);
    SmallIsTyped(scode);
  }

  /** A key of the four rows always adds its character, but for L and C with control, and unless the line is full. */
  lemma RowKeyIsTyped(m: Modifiers, line: seq<byte>, scode: nat)
    requires m.mode < 4 && InRows(scode) && |line| < 127 && !(m.ctrl && (scode == 0x26 || scode == 0x2E))
    ensures Edit(m, line, scode) == line + [ScancodeMap(m.mode, scode)]
  {
  }

  /** Backspace takes the last character back, control-L all of them, and the modifiers none. */
  lemma EditingKeys(m: Modifiers, line: seq<byte>, c: byte, modifier: nat)
    requires m.mode < 4 && modifier in {0x1D, 0x2A, 0x36, 0x38, 0x3A, 0x3B, 0x3C, 0x3D, 0x9D, 0xAA, 0xB6, 0xB8}
    ensures Edit(m, line + [c], 0x0E) == line && Edit(m, [], 0x0E) == []
    ensures m.ctrl ==> Edit(m, line, 0x26) == [] && Edit(m, line, 0x2E) == line
    ensures Edit(m, line, modifier) == line
  {
    assert (line + [c])[..|line|] == line;
  }

  lemma SmallIsTyped(scode: nat)
    ensures ScancodeMap(0, scode) == if ' ' <= Plain(scode) <= '~' then Plain(scode) as int else NUL
  {
  }
}
