/** What the key translation promises: case-insensitive letters, digits, the shift
    set, shared physical keys, the identity fallback and the tag stripping. */
module KeymapProperties {
  import opened Words
  import opened InputCodes
  import opened Keymap

  /** The letter keys in alphabetical order (the kernel numbers them in QWERTY order). */
  const LetterKeys: seq<int> := [
    KEY_A, KEY_B, KEY_C, KEY_D, KEY_E, KEY_F, KEY_G, KEY_H, KEY_I, KEY_J, KEY_K, KEY_L, KEY_M,
    KEY_N, KEY_O, KEY_P, KEY_Q, KEY_R, KEY_S, KEY_T, KEY_U, KEY_V, KEY_W, KEY_X, KEY_Y, KEY_Z]

  /** The digit keys: the kernel numbers 1..9 consecutively, then 0. */
  function DigitKey(d: int): int
    requires 0 <= d <= 9
  {
    if d == 0 then KEY_0 else KEY_1 + (d - 1)
  }

  /** The characters typed with shift on a US keyboard, plus the apostrophe, which
      the table also types with shift. */
  const ShiftedCharacters: set<char> := (set c: char | 'A' <= c <= 'Z') + {
    '!', '"', '#', '$', '%', '&', '\'', '(', ')', '*', '+',
    ':', '<', '>', '?', '@', '^', '_', '{', '|', '}', '~'}

  /** Shifted characters and the unshifted character on the same physical key. */
  const SharedKeys: seq<(char, char)> := [
    (':', ';'), ('<', ','), ('>', '.'), ('?', '/'), ('_', '-'), ('+', '='),
    ('{', '['), ('|', '\\'), ('}', ']'), ('!', '1'), ('@', '2'), ('#', '3'),
    ('$', '4'), ('%', '5'), ('^', '6'), ('&', '7'), ('*', '8'), ('(', '9'), (')', '0')]

  /** A letter types its key in either case; the capital one with shift. */
  lemma LettersIgnoreCase(i: int)
    requires 0 <= i < 26
    ensures Translate(0x41 + i, false) == Translation(LetterKeys[i], true)
    ensures Translate(0x61 + i, false) == Translation(LetterKeys[i], false)
  {
    CapitalLetter(i);
    SmallLetter(i);
  }

  lemma CapitalLetter(i: int)
    requires 0 <= i < 26
    ensures Translate(0x41 + i, false) == Translation(LetterKeys[i], true)
  {
  }

  lemma SmallLetter(i: int)
    requires 0 <= i < 26
    ensures Translate(0x61 + i, false) == Translation(LetterKeys[i], false)
  {
  }

  lemma LetterKeysDistinct()
    ensures forall i, j :: 0 <= i < j < 26 ==> LetterKeys[i] != LetterKeys[j]
  {
  }

  lemma DigitsUnshifted(d: int)
    requires 0 <= d <= 9
    ensures Translate(0x30 + d, false) == Translation(DigitKey(d), false)
  {
  }

  lemma ShiftFlagExactly(k: int32)
    ensures Translate(k, false).shiftRequired <==> exists c :: c in ShiftedCharacters && k == c as int
  {
    if InShiftRanges(k) {
      var c := k as char;
      assert c as int == k;
      assert c in ShiftedCharacters;
    } else {
      forall c | c in ShiftedCharacters
        ensures InShiftRanges(c as int)
      {
      }
    }
  }

  lemma ShiftFlagOnlySet(k: int32, shiftIn: bool)
    ensures Translate(k, shiftIn).code == Translate(k, false).code
    ensures Translate(k, shiftIn).shiftRequired == (shiftIn || Translate(k, false).shiftRequired)
  {
  }

  /** A shifted character types the key of its unshifted partner, with shift, and
      the partner itself is typed without shift. */
  lemma SharedPhysicalKeys(i: int)
    requires 0 <= i < |SharedKeys|
    ensures Translate(SharedKeys[i].0 as int, false) == Translation(Translate(SharedKeys[i].1 as int, false).code, true)
    ensures !Translate(SharedKeys[i].1 as int, false).shiftRequired
  {
    if i < 9 {
      SharedPunctuationKeys(i);
    } else {
      SharedDigitKeys(i);
    }
  }

  lemma SharedPunctuationKeys(i: int)
    requires 0 <= i < 9
    ensures Translate(SharedKeys[i].0 as int, false) == Translation(Translate(SharedKeys[i].1 as int, false).code, true)
    ensures !Translate(SharedKeys[i].1 as int, false).shiftRequired
  {
  }

  lemma SharedDigitKeys(i: int)
    requires 9 <= i < |SharedKeys|
    ensures Translate(SharedKeys[i].0 as int, false) == Translation(Translate(SharedKeys[i].1 as int, false).code, true)
    ensures !Translate(SharedKeys[i].1 as int, false).shiftRequired
  {
  }

  /** The double quote is typed as the apostrophe key with shift (not as the 2 key),
      and the space as the space bar. */
  lemma QuoteAndSpace()
    ensures Translate(0x22, false) == Translation(KEY_APOSTROPHE, true)
    ensures Translate(0x20, false) == Translation(KEY_SPACE, false)
  {
  }

  lemma IdentityFallback(k: int32)
    requires SwitchCase(k).None?
    ensures Translate(k, false) == Translation(k, false)
  {
  }

  lemma PrintableAsciiHasCase(k: int)
    requires 0x20 <= k <= 0x7E && k != 0x60
    ensures SwitchCase(k).Some?
  {
  }

  /** The apostrophe is typed exactly like the tilde: the grave key with shift. */
  lemma ApostropheTypedAsTilde()
    ensures Translate(0x27, false) == Translation(KEY_GRAVE, true) == Translate(0x7E, false)
  {
  }

  /** The backquote has no case, so it falls back to its own value, 96, which is
      the kernel's keypad Enter key. */
  lemma BackquoteFallsThrough()
    ensures Translate(0x60, false) == Translation(KEY_KPENTER, false)
  {
  }

  lemma StripTagIdempotent(keysym: int32, tag: KeyTag)
    ensures StripTag(StripTag(keysym, tag), tag) == StripTag(keysym, tag)
  {
    if IsTagged(keysym, tag) {
      BitAndIdempotent(Unsigned(keysym), tag.mask);
    }
  }

  /** A tagged identifier translates as its masked bits do. */
  lemma LookupTagged(keysym: int32, tag: KeyTag, shiftIn: bool)
    requires IsTagged(keysym, tag)
    ensures LookupCode(keysym, tag, shiftIn) == Translate(Signed(BitAnd(Unsigned(keysym), tag.mask)), shiftIn)
    ensures LookupCode(keysym, tag, shiftIn) == LookupCode(StripTag(keysym, tag), tag, shiftIn)
  {
    StripTagIdempotent(keysym, tag);
  }

  /** With a mask that clears the tag, adding the tag to an identifier inside the
      mask does not change its translation. */
  lemma TagIsTransparent(id: int32, tag: KeyTag, shiftIn: bool)
    requires MaskClearsTag(tag)
    requires 0 <= id && BitAnd(id, tag.mask) == id
    ensures BitOr(id, tag.identifier) < TWO_32
    ensures LookupCode(Signed(BitOr(id, tag.identifier)), tag, shiftIn) == LookupCode(id, tag, shiftIn)
    ensures LookupCode(id, tag, shiftIn) == Translate(id, shiftIn)
  {
    Pow2Of32();
    BitOrBound(id, tag.identifier, 32);
    var t := BitOr(id, tag.identifier);
    var tagged := Signed(t);
    BitOrAbsorbed(id, tag.identifier);
    assert IsTagged(tagged, tag);
    BitAndDistributesOverOr(id, tag.identifier, tag.mask);
    BitAndCommutative(tag.identifier, tag.mask);
    assert BitAnd(t, tag.mask) == id;
    BitAndAssociative(id, tag.mask, tag.identifier);
    assert !IsTagged(id, tag);
  }
}
