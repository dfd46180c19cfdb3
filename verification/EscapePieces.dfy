/**
 What terminal output is made of, and what stripping makes of it.

 Pieces are defined by their bytes, as sections 5.3 and 5.4 of ECMA-48 do for escape and
 control sequences.  Every output is a list of complete pieces and perhaps an unfinished
 one, and stripping it gives what its characters mean.
 */
module EscapePieces {
  import opened Outcomes
  import opened PlainText

  /**
   One piece of terminal output: a character, an escape with one byte, a control sequence,
   or an operating system command, which a bell or an escape and a backslash ends.
   */
  datatype Piece =
    | Character(b: byte)
    | Short(b: byte)
    | Control(parameters: Bytes, final: byte)
    | Command(text: Bytes, bell: bool)

  predicate Final(b: byte) { 0x40 <= b <= 0x7e }

  predicate NoFinal(parameters: Bytes) {
    forall i :: 0 <= i < |parameters| ==> !Final(parameters[i])
  }

  /** Neither a bell nor an escape with a backslash occurs. */
  predicate NoEnd(text: Bytes) {
    && (forall i :: 0 <= i < |text| ==> text[i] != 0x07)
    && forall i :: 0 <= i < |text| - 1 ==> text[i] != 0x1b || text[i + 1] != 0x5c
  }

  predicate WellFormed(piece: Piece) {
    match piece
    case Character(b) => b != 0x1b
    case Short(b) => b != 0x5b && b != 0x5d
    case Control(parameters, final) => NoFinal(parameters) && Final(final)
    case Command(text, _) => NoEnd(text)
  }

  function End(bell: bool): Bytes {
    if bell then [0x07] else [0x1b, 0x5c]
  }

  function Spelled(piece: Piece): Bytes {
    match piece
    case Character(b) => [b]
    case Short(b) => [0x1b, b]
    case Control(parameters, final) => [0x1b, 0x5b] + (parameters + [final])
    case Command(text, bell) => [0x1b, 0x5d] + (text + End(bell))
  }

  /** What a piece adds to the text: blanks count as spaces, and only characters show. */
  function Meant(piece: Piece): Bytes {
    if !piece.Character? then []
    else if piece.b == 0x09 || piece.b == 0x0a || piece.b == 0x0d then [0x20]
    else if 0x20 <= piece.b <= 0x7e then [piece.b]
    else []
  }

  function AllSpelled(pieces: seq<Piece>): Bytes {
    if pieces == [] then [] else Spelled(pieces[0]) + AllSpelled(pieces[1..])
  }

  function AllMeant(pieces: seq<Piece>): Bytes {
    if pieces == [] then [] else Meant(pieces[0]) + AllMeant(pieces[1..])
  }

  ghost predicate AllWellFormed(pieces: seq<Piece>) {
    forall i :: 0 <= i < |pieces| ==> WellFormed(pieces[i])
  }

  /** Nothing, or the beginning of a piece that is never finished. */
  predicate Unfinished(rest: Bytes) {
    || rest == [] || rest == [0x1b]
    || (|rest| >= 2 && rest[0] == 0x1b && rest[1] == 0x5b && NoFinal(rest[2..]))
    || (|rest| >= 2 && rest[0] == 0x1b && rest[1] == 0x5d && NoEnd(rest[2..]))
  }

  lemma {:induction false} ControlSkips(parameters: Bytes, final: byte, after: Bytes)
    requires NoFinal(parameters)
    ensures Strip(Csi, parameters) == []
    ensures Final(final) ==> Strip(Csi, (parameters + [final]) + after) == Strip(Ground, after)
    decreases parameters
  {
    var bytes := (parameters + [final]) + after;
    if parameters == [] {
      assert bytes[0] == final && bytes[1..] == after;
    } else {
      assert bytes[0] == parameters[0] && bytes[1..] == (parameters[1..] + [final]) + after;
      ControlSkips(parameters[1..], final, after);
    }
  }

  /** Inside a command, just after an escape or not. */
  function Inside(escaped: bool): Mode {
    if escaped then OscEscape else Osc
  }

  lemma {:induction false} CommandSkips(text: Bytes, bell: bool, after: Bytes, escaped: bool)
    requires NoEnd(text) && (escaped && text != [] ==> text[0] != 0x5c)
    ensures Strip(Inside(escaped), text) == []
    ensures Strip(Inside(escaped), (text + End(bell)) + after) == Strip(Ground, after)
    decreases text
  {
    if text == [] {
      EndEnds(bell, after, escaped);
      assert (text + End(bell)) + after == End(bell) + after;
    } else {
      CommandStep(text, End(bell), after);
      assert Next(Inside(escaped), text[0]) == Inside(text[0] == 0x1b);
      assert text[0] == 0x1b && |text| > 1 ==> text[1] != 0x5c;
      assert forall i :: 0 <= i < |text[1..]| ==> text[1..][i] == text[i + 1];
      CommandSkips(text[1..], bell, after, text[0] == 0x1b);
    }
  }

  lemma CommandStep(text: Bytes, end: Bytes, after: Bytes)
    requires text != []
    ensures ((text + end) + after)[0] == text[0] && ((text + end) + after)[1..] == (text[1..] + end) + after
  {
  }

  lemma EndEnds(bell: bool, after: Bytes, escaped: bool)
    ensures Strip(Inside(escaped), End(bell) + after) == Strip(Ground, after)
  {
    var bytes := End(bell) + after;
    assert bytes[1..] == End(bell)[1..] + after;
    if bell {
      assert bytes[1..] == after;
    } else {
      assert bytes[1..][0] == 0x5c && bytes[1..][1..] == after;
    }
  }

  lemma EscapeOpens(b: byte, body: Bytes)
    ensures Strip(Ground, [0x1b, b] + body)
         == Strip(if b == 0x5b then Csi else if b == 0x5d then Osc else Ground, body)
  {
    var bytes := [0x1b, b] + body;
    assert bytes[1..][0] == b && bytes[1..][1..] == body;
  }

  lemma ControlIsRead(parameters: Bytes, final: byte, after: Bytes)
    requires NoFinal(parameters) && Final(final)
    ensures Strip(Ground, Spelled(Control(parameters, final)) + after) == Strip(Ground, after)
  {
    var body := (parameters + [final]) + after;
    assert Spelled(Control(parameters, final)) + after == [0x1b, 0x5b] + body;
    EscapeOpens(0x5b, body);
    ControlSkips(parameters, final, after);
  }

  lemma CommandIsRead(text: Bytes, bell: bool, after: Bytes)
    requires NoEnd(text)
    ensures Strip(Ground, Spelled(Command(text, bell)) + after) == Strip(Ground, after)
  {
    var body := (text + End(bell)) + after;
    assert Spelled(Command(text, bell)) + after == [0x1b, 0x5d] + body;
    EscapeOpens(0x5d, body);
    CommandSkips(text, bell, after, false);
  }

  lemma CharacterIsRead(b: byte, after: Bytes)
    requires b != 0x1b
    ensures Strip(Ground, [b] + after) == Meant(Character(b)) + Strip(Ground, after)
  {
    assert ([b] + after)[1..] == after;
  }

  /** A piece at the front adds what it means and leaves the machine in ground mode. */
  lemma PieceIsRead(piece: Piece, after: Bytes)
    requires WellFormed(piece)
    ensures Strip(Ground, Spelled(piece) + after) == Meant(piece) + Strip(Ground, after)
  {
    match piece
    case Character(b) => CharacterIsRead(b, after);
    case Short(b) => EscapeOpens(b, after);
    case Control(parameters, final) => ControlIsRead(parameters, final, after);
    case Command(text, bell) => CommandIsRead(text, bell, after);
  }

  lemma UnfinishedIsSilent(rest: Bytes)
    requires Unfinished(rest)
    ensures Strip(Ground, rest) == []
  {
    if |rest| >= 2 {
      assert rest[1..][1..] == rest[2..];
      if rest[1] == 0x5b {
        ControlSkips(rest[2..], 0x40, []);
      } else {
        CommandSkips(rest[2..], true, [], false);
      }
    }
  }

  /** Stripping reads the pieces one by one; a piece that is never finished swallows the rest. */
  lemma {:induction false} StripReadsPieces(pieces: seq<Piece>, rest: Bytes)
    requires AllWellFormed(pieces) && Unfinished(rest)
    ensures Strip(Ground, AllSpelled(pieces) + rest) == AllMeant(pieces)
  {
    if pieces == [] {
      UnfinishedIsSilent(rest);
      assert AllSpelled(pieces) + rest == rest;
    } else {
      var first, others := Spelled(pieces[0]), AllSpelled(pieces[1..]);
      assert (first + others) + rest == first + (others + rest);
      PieceIsRead(pieces[0], others + rest);
      StripReadsPieces(pieces[1..], rest);
    }
  }

  // Every output is made of such pieces.

  lemma {:induction false} SplitControl(body: Bytes) returns (parameters: Bytes, after: Bytes)
    ensures if after == [] then parameters == body && NoFinal(body)
            else body == parameters + after && NoFinal(parameters) && Final(after[0])
    decreases body
  {
    if body == [] || Final(body[0]) {
      parameters, after := [], body;
    } else {
      parameters, after := SplitControl(body[1..]);
      parameters := [body[0]] + parameters;
    }
  }

  lemma {:induction false} SplitCommand(body: Bytes) returns (text: Bytes, bell: bool, after: Option<Bytes>)
    ensures NoEnd(text)
    ensures body == if after.Some? then text + (End(bell) + after.value) else text
    decreases body
  {
    if body == [] {
      text, bell, after := [], false, None;
    } else if body[0] == 0x07 {
      text, bell, after := [], true, Some(body[1..]);
    } else if |body| > 1 && body[0] == 0x1b && body[1] == 0x5c {
      text, bell, after := [], false, Some(body[2..]);
    } else {
      text, bell, after := SplitCommand(body[1..]);
      assert text != [] ==> text[0] == body[1];
      text := [body[0]] + text;
      assert body == [body[0]] + body[1..];
    }
  }

  /** The first piece of an output, unless it is unfinished. */
  lemma FirstPiece(bytes: Bytes) returns (piece: Piece, after: Option<Bytes>)
    requires bytes != []
    ensures if after.None? then Unfinished(bytes)
            else WellFormed(piece) && bytes == Spelled(piece) + after.value && |after.value| < |bytes|
  {
    piece, after := Character(bytes[0]), None;
    if bytes[0] != 0x1b {
      after := Some(bytes[1..]);
    } else if |bytes| > 1 && bytes[1] == 0x5b {
      var parameters, found := SplitControl(bytes[2..]);
      if found != [] {
        piece, after := Control(parameters, found[0]), Some(found[1..]);
        assert bytes == [0x1b, 0x5b] + bytes[2..];
      }
    } else if |bytes| > 1 && bytes[1] == 0x5d {
      var text, bell, found := SplitCommand(bytes[2..]);
      assert bytes == [0x1b, 0x5d] + bytes[2..];
      if found.Some? {
        piece, after := Command(text, bell), found;
      }
    } else if |bytes| > 1 {
      piece, after := Short(bytes[1]), Some(bytes[2..]);
    }
  }

  /** So that reading the pieces says what stripping does to every output. */
  lemma {:induction false} EveryOutputHasPieces(bytes: Bytes) returns (pieces: seq<Piece>, rest: Bytes)
    ensures AllWellFormed(pieces) && Unfinished(rest) && bytes == AllSpelled(pieces) + rest
    decreases |bytes|
  {
    pieces, rest := [], bytes;
    if bytes != [] {
      var piece, after := FirstPiece(bytes);
      if after.Some? {
        pieces, rest := EveryOutputHasPieces(after.value);
        assert Spelled(piece) + (AllSpelled(pieces) + rest) == (Spelled(piece) + AllSpelled(pieces)) + rest;
        assert ([piece] + pieces)[1..] == pieces;
        pieces := [piece] + pieces;
      }
    }
  }

  lemma SilentVanishes(before: Bytes, silent: Bytes, after: Bytes)
    requires EndMode(Ground, before) == Ground && Strip(Ground, silent + after) == Strip(Ground, after)
    ensures Strip(Ground, before + silent + after) == Strip(Ground, before + after)
  {
    StripInChunks(Ground, before, silent + after);
    StripInChunks(Ground, before, after);
    assert before + silent + after == before + (silent + after);
  }

  /** A complete sequence of any kind vanishes, whatever stands around it. */
  lemma SequenceVanishes(before: Bytes, piece: Piece, after: Bytes)
    requires EndMode(Ground, before) == Ground && WellFormed(piece) && !piece.Character?
    ensures Strip(Ground, before + Spelled(piece) + after) == Strip(Ground, before + after)
  {
    PieceIsRead(piece, after);
    SilentVanishes(before, Spelled(piece), after);
  }

  /** A text without escapes is translated byte by byte. */
  lemma {:induction false} TextIsBytewise(text: Bytes)
    requires forall i :: 0 <= i < |text| ==> text[i] != 0x1b
    ensures Strip(Ground, text) == AllMeant(seq(|text|, i requires 0 <= i < |text| => Character(text[i])))
  {
    if text != [] {
      var pieces := seq(|text|, i requires 0 <= i < |text| => Character(text[i]));
      TextIsBytewise(text[1..]);
      assert text == Spelled(Character(text[0])) + text[1..];
      PieceIsRead(Character(text[0]), text[1..]);
      assert pieces[1..] == seq(|text[1..]|, i requires 0 <= i < |text[1..]| => Character(text[1..][i]));
    }
  }
}
