/**
 Stripping terminal escape sequences.

 `PlainText` walks an index over the bytes with one nested loop for each kind of escape
 sequence.  It is proved equal to a machine that sees one byte at a time, and what the
 smoke test relies on is proved about that machine.  The byte classes are those of
 section 5.4 of ECMA-48: a control sequence ends at its first byte in 0x40..0x7e.
 */
module PlainText {
  import opened Outcomes

  const ESC: byte := 0x1b
  const BEL: byte := 0x07
  const BACKSLASH: byte := 0x5c
  const CSI_OPEN: byte := 0x5b
  const OSC_OPEN: byte := 0x5d
  const SPACE: byte := 0x20

  datatype Mode = Ground | Escape | Csi | Osc | OscEscape

  predicate IsBlank(b: byte) { b == 0x0d || b == 0x0a || b == 0x09 }

  predicate IsPrintable(b: byte) { 0x20 <= b <= 0x7e }

  predicate IsCsiFinal(b: byte) { 0x40 <= b <= 0x7e }

  /** The mode after one byte. */
  function Next(mode: Mode, b: byte): Mode {
    match mode
    case Ground => if b == ESC then Escape else Ground
    case Escape => if b == CSI_OPEN then Csi else if b == OSC_OPEN then Osc else Ground
    case Csi => if IsCsiFinal(b) then Ground else Csi
    case Osc => if b == BEL then Ground else if b == ESC then OscEscape else Osc
    case OscEscape => if b == BEL || b == BACKSLASH then Ground else if b == ESC then OscEscape else Osc
  }

  /** What the machine prints on one byte: only text in ground mode shows. */
  function Shown(mode: Mode, b: byte): Bytes {
    if mode != Ground then [] else if IsBlank(b) then [SPACE] else if IsPrintable(b) then [b] else []
  }

  function Strip(mode: Mode, bytes: Bytes): Bytes
    decreases bytes
  {
    if bytes == [] then [] else Shown(mode, bytes[0]) + Strip(Next(mode, bytes[0]), bytes[1..])
  }

  function EndMode(mode: Mode, bytes: Bytes): Mode
    decreases bytes
  {
    if bytes == [] then mode else EndMode(Next(mode, bytes[0]), bytes[1..])
  }

  // ---------------------------------------------------------------------------
  // The nested loops compute the machine
  // ---------------------------------------------------------------------------

  /** Skips the rest of a control sequence, from just after its opening bracket. */
  method SkipCsi(bytes: Bytes, start: nat) returns (index: nat)
    requires start <= |bytes|
    ensures start <= index <= |bytes|
    ensures Strip(Csi, bytes[start..]) == Strip(Ground, bytes[index..])
  {
    index := start;
    while index < |bytes|
      invariant start <= index <= |bytes|
      invariant Strip(Csi, bytes[start..]) == Strip(Csi, bytes[index..])
    {
      var b := bytes[index];
      index := index + 1;
      assert bytes[index - 1..][1..] == bytes[index..];
      if IsCsiFinal(b) {
        return;
      }
    }
  }

  /** An escape inside a command that no backslash follows is ordinary text of the command. */
  lemma StrayEscape(rest: Bytes)
    requires rest == [] || rest[0] != BACKSLASH
    ensures Strip(OscEscape, rest) == Strip(Osc, rest)
  {
  }

  /** One step inside an operating system command. */
  lemma OscStep(bytes: Bytes, index: nat)
    requires index < |bytes|
    ensures var closes := bytes[index] == ESC && index + 1 < |bytes| && bytes[index + 1] == BACKSLASH;
            Strip(Osc, bytes[index..])
            == if bytes[index] == BEL then Strip(Ground, bytes[index + 1..])
               else if closes then Strip(Ground, bytes[index + 2..])
               else Strip(Osc, bytes[index + 1..])
  {
    StripAt(Osc, bytes, index);
    if bytes[index] == ESC {
      if index + 1 < |bytes| && bytes[index + 1] == BACKSLASH {
        StripAt(OscEscape, bytes, index + 1);
      } else {
        StrayEscape(bytes[index + 1..]);
      }
    }
  }

  /** Skips the rest of an operating system command. */
  method SkipOsc(bytes: Bytes, start: nat) returns (index: nat)
    requires start <= |bytes|
    ensures start <= index <= |bytes|
    ensures Strip(Osc, bytes[start..]) == Strip(Ground, bytes[index..])
  {
    index := start;
    while index < |bytes|
      invariant start <= index <= |bytes|
      invariant Strip(Osc, bytes[start..]) == Strip(Osc, bytes[index..])
    {
      OscStep(bytes, index);
      if bytes[index] == BEL {
        index := index + 1;
        return;
      }
      if bytes[index] == ESC && index + 1 < |bytes| && bytes[index + 1] == BACKSLASH {
        index := index + 2;
        return;
      }
      index := index + 1;
    }
  }

  /** Skips one escape sequence, from just after its escape byte. */
  method SkipEscape(bytes: Bytes, start: nat) returns (index: nat)
    requires start <= |bytes|
    ensures start <= index <= |bytes|
    ensures Strip(Escape, bytes[start..]) == Strip(Ground, bytes[index..])
  {
    index := start;
    if index >= |bytes| {
      return;
    }
    assert bytes[start..][1..] == bytes[start + 1..];
    if bytes[index] == CSI_OPEN {
      index := SkipCsi(bytes, index + 1);
    } else if bytes[index] == OSC_OPEN {
      index := SkipOsc(bytes, index + 1);
    } else {
      index := index + 1;
    }
  }

  /** One step of the outer loop. */
  lemma GroundStep(text: Bytes, bytes: Bytes, index: nat)
    requires index < |bytes| && text + Strip(Ground, bytes[index..]) == Strip(Ground, bytes)
    ensures var b := bytes[index];
            var longer := if b == ESC then text else if IsBlank(b) then text + [SPACE]
                          else if IsPrintable(b) then text + [b] else text;
            longer + Strip(if b == ESC then Escape else Ground, bytes[index + 1..]) == Strip(Ground, bytes)
  {
    var shown, rest := Shown(Ground, bytes[index]), Strip(Next(Ground, bytes[index]), bytes[index + 1..]);
    StripAt(Ground, bytes, index);
    assert text + (shown + rest) == (text + shown) + rest && text + [] == text;
  }

  method PlainText(bytes: Bytes) returns (text: Bytes)
    ensures text == Strip(Ground, bytes)
  {
    text := [];
    var index := 0;
    while index < |bytes|
      invariant 0 <= index <= |bytes|
      invariant text + Strip(Ground, bytes[index..]) == Strip(Ground, bytes)
    {
      var b := bytes[index];
      GroundStep(text, bytes, index);
      if b == ESC {
        index := SkipEscape(bytes, index + 1);
      } else {
        if IsBlank(b) {
          text := text + [SPACE];
        } else if IsPrintable(b) {
          text := text + [b];
        }
        index := index + 1;
      }
    }
  }

  lemma StripAt(mode: Mode, bytes: Bytes, i: nat)
    requires i < |bytes|
    ensures Strip(mode, bytes[i..]) == Shown(mode, bytes[i]) + Strip(Next(mode, bytes[i]), bytes[i + 1..])
  {
    assert bytes[i..][1..] == bytes[i + 1..];
  }

  // ---------------------------------------------------------------------------
  // What stripping means
  // ---------------------------------------------------------------------------

  /** Stripping a stream in two chunks, carrying the mode over, loses nothing. */
  lemma {:induction false} StripInChunks(mode: Mode, a: Bytes, b: Bytes)
    ensures Strip(mode, a + b) == Strip(mode, a) + Strip(EndMode(mode, a), b)
    ensures EndMode(mode, a + b) == EndMode(EndMode(mode, a), b)
    decreases a
  {
    if a == [] {
      assert a + b == b;
    } else {
      var next := Next(mode, a[0]);
      assert (a + b)[0] == a[0] && (a + b)[1..] == a[1..] + b;
      StripInChunks(next, a[1..], b);
      var shown, x, y := Shown(mode, a[0]), Strip(next, a[1..]), Strip(EndMode(next, a[1..]), b);
      assert shown + (x + y) == (shown + x) + y;
    }
  }

  /** Stripping chunk by chunk without carrying the mode is right exactly after complete chunks. */
  lemma ChunksStripIndependentlyIff(a: Bytes)
    ensures EndMode(Ground, a) == Ground
            <==> forall b: Bytes :: Strip(Ground, a + b) == Strip(Ground, a) + Strip(Ground, b)
  {
    forall b: Bytes ensures Strip(Ground, a + b) == Strip(Ground, a) + Strip(EndMode(Ground, a), b) {
      StripInChunks(Ground, a, b);
    }
    var letter: Bytes := [0x41];
    assert Strip(Ground, letter) == letter;
    if EndMode(Ground, a) != Ground {
      assert Strip(EndMode(Ground, a), letter) == [];
      assert Strip(Ground, a + letter) == Strip(Ground, a);
    }
  }

  predicate Plain(bytes: Bytes) {
    forall i :: 0 <= i < |bytes| ==> IsPrintable(bytes[i])
  }

  lemma {:induction false} StripIsPlain(mode: Mode, bytes: Bytes)
    ensures Plain(Strip(mode, bytes)) && |Strip(mode, bytes)| <= |bytes|
    decreases bytes
  {
    if bytes != [] {
      StripIsPlain(Next(mode, bytes[0]), bytes[1..]);
    }
  }

  lemma {:induction false} PlainIsUntouched(bytes: Bytes)
    ensures Plain(bytes) <==> Strip(Ground, bytes) == bytes
  {
    if Plain(bytes) && bytes != [] {
      PlainIsUntouched(bytes[1..]);
      assert bytes == [bytes[0]] + bytes[1..];
    }
    StripIsPlain(Ground, bytes);
  }

  lemma StripTwice(bytes: Bytes)
    ensures Strip(Ground, Strip(Ground, bytes)) == Strip(Ground, bytes)
  {
    StripIsPlain(Ground, bytes);
    PlainIsUntouched(Strip(Ground, bytes));
  }
}
