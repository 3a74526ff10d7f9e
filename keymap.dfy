/** The translation of a key identifier into a physical key code and a
    "shift required" flag (`lookup_code` in uinput_manager.cc). */
module Keymap {
  import opened Words
  import opened InputCodes

  datatype Option<T> = None | Some(value: T)

  /** The build-time constants WD_NORMAL_KEY_IDENTIFIER (the companion-key tag
      bits) and WD_NORMAL_KEY_MASK (the bits kept when the tag is stripped). Their
      values come from a header that is not part of this model, so every statement
      here holds for all of them. */
  datatype KeyTag = KeyTag(identifier: word, mask: word)

  /** A tag the mask removes: the identifier has bits and the mask clears them all. */
  predicate MaskClearsTag(tag: KeyTag)
  {
    tag.identifier != 0 && BitAnd(tag.mask, tag.identifier) == 0
  }

  predicate IsTagged(keysym: int32, tag: KeyTag)
  {
    BitAnd(Unsigned(keysym), tag.identifier) != 0
  }

  /** A tagged identifier is replaced by its masked bits; others are kept. The bits
      of a stripped identifier are bits of both the mask and the identifier. */
  function StripTag(keysym: int32, tag: KeyTag): (r: int32)
    ensures !IsTagged(keysym, tag) ==> r == keysym
    ensures IsTagged(keysym, tag) ==>
      && BitAnd(Unsigned(r), tag.mask) == Unsigned(r)
      && BitAnd(Unsigned(r), Unsigned(keysym)) == Unsigned(r)
  {
    if IsTagged(keysym, tag) then
      BitAndWithin(Unsigned(keysym), tag.mask);
      Signed(BitAnd(Unsigned(keysym), tag.mask))
    else keysym
  }

  /** The identifiers for which the shift flag is raised: a set of ranges and
      single values. */
  predicate InShiftRanges(k: int): (r: bool)
    ensures r ==> 0x21 <= k <= 0x7E
  {
    || (0x41 <= k <= 0x5A)
    || (0x21 <= k <= 0x29)
    || (0x7B <= k <= 0x7E)
    || k == 0x2A || k == 0x2B
    || k == 0x3A || k == 0x3C
    || k == 0x3E || k == 0x3F
    || k == 0x5E || k == 0x5F
    || k == 0x40
  }

  /** The physical key of the `case` that matches k; None when k reaches `default`. */
  function SwitchCase(k: int): (r: Option<int>)
    ensures r.Some? ==> 0x20 <= k <= 0x7E && IsTypingKey(r.value)
  {
    match k
    // characters typed with shift
    case 0x21 => Some(KEY_1)
    case 0x22 => Some(KEY_APOSTROPHE)
    case 0x23 => Some(KEY_3)
    case 0x24 => Some(KEY_4)
    case 0x25 => Some(KEY_5)
    case 0x26 => Some(KEY_7)
    case 0x27 => Some(KEY_GRAVE)
    case 0x28 => Some(KEY_9)
    case 0x29 => Some(KEY_0)
    case 0x2A => Some(KEY_8)
    case 0x2B => Some(KEY_EQUAL)
    case 0x3A => Some(KEY_SEMICOLON)
    case 0x3C => Some(KEY_COMMA)
    case 0x3E => Some(KEY_DOT)
    case 0x3F => Some(KEY_SLASH)
    case 0x5E => Some(KEY_6)
    case 0x5F => Some(KEY_MINUS)
    case 0x7B => Some(KEY_LEFTBRACE)
    case 0x7C => Some(KEY_BACKSLASH)
    case 0x7D => Some(KEY_RIGHTBRACE)
    case 0x7E => Some(KEY_GRAVE)
    case 0x40 => Some(KEY_2)
    // characters typed without shift
    case 0x2C => Some(KEY_COMMA)
    case 0x2D => Some(KEY_MINUS)
    case 0x2E => Some(KEY_DOT)
    case 0x2F => Some(KEY_SLASH)
    case 0x3B => Some(KEY_SEMICOLON)
    case 0x3D => Some(KEY_EQUAL)
    case 0x5B => Some(KEY_LEFTBRACE)
    case 0x5C => Some(KEY_BACKSLASH)
    case 0x5D => Some(KEY_RIGHTBRACE)
    case 0x20 => Some(KEY_SPACE)
    // digits
    case 0x30 => Some(KEY_0)
    case 0x31 => Some(KEY_1)
    case 0x32 => Some(KEY_2)
    case 0x33 => Some(KEY_3)
    case 0x34 => Some(KEY_4)
    case 0x35 => Some(KEY_5)
    case 0x36 => Some(KEY_6)
    case 0x37 => Some(KEY_7)
    case 0x38 => Some(KEY_8)
    case 0x39 => Some(KEY_9)
    // letters, upper and lower case
    case 0x41 => Some(KEY_A)
    case 0x61 => Some(KEY_A)
    case 0x42 => Some(KEY_B)
    case 0x62 => Some(KEY_B)
    case 0x43 => Some(KEY_C)
    case 0x63 => Some(KEY_C)
    case 0x44 => Some(KEY_D)
    case 0x64 => Some(KEY_D)
    case 0x45 => Some(KEY_E)
    case 0x65 => Some(KEY_E)
    case 0x46 => Some(KEY_F)
    case 0x66 => Some(KEY_F)
    case 0x47 => Some(KEY_G)
    case 0x67 => Some(KEY_G)
    case 0x48 => Some(KEY_H)
    case 0x68 => Some(KEY_H)
    case 0x49 => Some(KEY_I)
    case 0x69 => Some(KEY_I)
    case 0x4A => Some(KEY_J)
    case 0x6A => Some(KEY_J)
    case 0x4B => Some(KEY_K)
    case 0x6B => Some(KEY_K)
    case 0x4C => Some(KEY_L)
    case 0x6C => Some(KEY_L)
    case 0x4D => Some(KEY_M)
    case 0x6D => Some(KEY_M)
    case 0x4E => Some(KEY_N)
    case 0x6E => Some(KEY_N)
    case 0x4F => Some(KEY_O)
    case 0x6F => Some(KEY_O)
    case 0x50 => Some(KEY_P)
    case 0x70 => Some(KEY_P)
    case 0x51 => Some(KEY_Q)
    case 0x71 => Some(KEY_Q)
    case 0x52 => Some(KEY_R)
    case 0x72 => Some(KEY_R)
    case 0x53 => Some(KEY_S)
    case 0x73 => Some(KEY_S)
    case 0x54 => Some(KEY_T)
    case 0x74 => Some(KEY_T)
    case 0x55 => Some(KEY_U)
    case 0x75 => Some(KEY_U)
    case 0x56 => Some(KEY_V)
    case 0x76 => Some(KEY_V)
    case 0x57 => Some(KEY_W)
    case 0x77 => Some(KEY_W)
    case 0x58 => Some(KEY_X)
    case 0x78 => Some(KEY_X)
    case 0x59 => Some(KEY_Y)
    case 0x79 => Some(KEY_Y)
    case 0x5A => Some(KEY_Z)
    case 0x7A => Some(KEY_Z)
    case _ => None
  }

  /** The physical keys the table can produce: the main block of a US keyboard,
      never a shift key. */
  predicate IsTypingKey(code: int)
  {
    KEY_1 <= code <= KEY_SPACE && code != KEY_LEFTSHIFT && code != KEY_RIGHTSHIFT
  }

  datatype Translation = Translation(code: int, shiftRequired: bool)

  /** lookup_code from the range test on: the identifier has already been stripped
      of its tag. shiftIn is the caller's value of the flag, which is only ever set. */
  function Translate(k: int32, shiftIn: bool): (r: Translation)
    ensures shiftIn ==> r.shiftRequired
    ensures r.shiftRequired && !shiftIn ==> SwitchCase(k).Some?
    ensures SwitchCase(k).Some? ==> IsTypingKey(r.code)
    ensures SwitchCase(k).None? ==> r == Translation(k, shiftIn)
  {
    var shift := if InShiftRanges(k) then true else shiftIn;
    match SwitchCase(k)
    case Some(code) => Translation(code, shift)
    case None => Translation(k, shift)
  }

  /** lookup_code: strip the tag, then translate. */
  function LookupCode(keysym: int32, tag: KeyTag, shiftIn: bool): (r: Translation)
    ensures !IsTagged(keysym, tag) ==> r == Translate(keysym, shiftIn)
  {
    Translate(StripTag(keysym, tag), shiftIn)
  }
}
