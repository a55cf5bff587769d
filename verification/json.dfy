/**
  The protocol decoder: the map's `content` rows turned into tiles, and the
  dispatch of a raw message on its `messagetype` name. JSON parsing itself is
  taken as already done; its outcomes arrive as a `Parsed` value.
*/
module Json {
  import opened Wrappers
  import opened Game
  import MessageTypes

  /** The tile a map character stands for; any character not listed is a wall. */
  function TileOf(c: char): (r: TileType)
    ensures r == Wall || Glyph(r) == c
  {
    match c
    case '_' => Floor
    case '|' => Wall
    case '-' => Door
    case '.' => Pellet
    case 'o' => SuperPellet
    case _ => Wall
  }

  /** The character the server uses for each tile. */
  function Glyph(t: TileType): char
  {
    match t
    case Floor => '_'
    case Wall => '|'
    case Door => '-'
    case Pellet => '.'
    case SuperPellet => 'o'
  }

  /** The five map characters the decoder knows. */
  const KnownGlyphs: string := "_|-.o"

  /** Each tile survives being written as its character and read back. */
  lemma TileOfGlyph(t: TileType)
    ensures Glyph(t) in KnownGlyphs
    ensures TileOf(Glyph(t)) == t
  {
  }

  /** Every known character is the glyph of the tile it decodes to; every other one is a wall. */
  lemma TileOfCharacter(c: char)
    ensures c in KnownGlyphs ==> Glyph(TileOf(c)) == c
    ensures c !in KnownGlyphs ==> TileOf(c) == Wall
  {
  }

  /** The rows joined end to end. */
  function Concat(rows: seq<string>): (s: string)
  {
    if rows == [] then "" else rows[0] + Concat(rows[1..])
  }

  /** The map content: every character of the joined rows, decoded in order. */
  function DecodeContent(rows: seq<string>): (tiles: seq<TileType>)
    ensures |tiles| == |Concat(rows)|
    ensures forall i :: 0 <= i < |tiles| ==> tiles[i] == TileOf(Concat(rows)[i])
  {
    var s := Concat(rows);
    seq(|s|, i requires 0 <= i < |s| => TileOf(s[i]))
  }

  /** Writes tiles back out as one row of characters. */
  function Glyphs(tiles: seq<TileType>): (s: string)
    ensures |s| == |tiles|
    ensures forall i :: 0 <= i < |s| ==> s[i] == Glyph(tiles[i])
  {
    seq(|tiles|, i requires 0 <= i < |tiles| => Glyph(tiles[i]))
  }

  /** Decoding is a left inverse of writing the tiles out, however the text is split into rows. */
  lemma DecodeGlyphs(tiles: seq<TileType>, rows: seq<string>)
    requires Concat(rows) == Glyphs(tiles)
    ensures DecodeContent(rows) == tiles
  {
  }

  /** Written out as a single row, the tiles decode back to themselves. */
  lemma DecodeOneRow(tiles: seq<TileType>)
    ensures DecodeContent([Glyphs(tiles)]) == tiles
  {
    assert Concat([Glyphs(tiles)]) == Glyphs(tiles) + Concat([]);
    DecodeGlyphs(tiles, [Glyphs(tiles)]);
  }

  /** All rows have `width` characters. */
  predicate Rectangular(rows: seq<string>, width: nat)
  {
    forall r :: 0 <= r < |rows| ==> |rows[r]| == width
  }

  /** Joining equal-length rows puts row r, column c at index r * width + c. */
  lemma {:induction false} ConcatRowMajor(rows: seq<string>, width: nat, r: nat, c: nat)
    requires Rectangular(rows, width)
    requires r < |rows| && c < width
    ensures |Concat(rows)| == |rows| * width
    ensures r * width + c < |Concat(rows)|
    ensures Concat(rows)[r * width + c] == rows[r][c]
  {
    ConcatLength(rows, width);
    if r > 0 {
      assert Rectangular(rows[1..], width) by {
        forall k | 0 <= k < |rows[1..]| ensures |rows[1..][k]| == width {
          assert rows[1..][k] == rows[k + 1];
        }
      }
      ConcatRowMajor(rows[1..], width, r - 1, c);
      assert r * width + c == width + ((r - 1) * width + c);
      assert rows[1..][r - 1] == rows[r];
    }
  }

  lemma {:induction false} ConcatLength(rows: seq<string>, width: nat)
    requires Rectangular(rows, width)
    ensures |Concat(rows)| == |rows| * width
  {
    if rows != [] {
      assert Rectangular(rows[1..], width) by {
        forall k | 0 <= k < |rows[1..]| ensures |rows[1..][k]| == width {
          assert rows[1..][k] == rows[k + 1];
        }
      }
      ConcatLength(rows[1..], width);
      assert |rows| * width == width + (|rows| - 1) * width;
    }
  }

  /** The map the server describes: its decoded content with the given width. */
  function MapOf(rows: seq<string>, width: nat): Map
  {
    Map(DecodeContent(rows), width)
  }

  /** For `height` equal rows of `width` characters, the decoded map has `width * height` tiles in `height` rows. */
  lemma MapOfShape(rows: seq<string>, width: nat)
    requires 0 < width < U32Limit && |rows| * width < U32Limit
    requires Rectangular(rows, width)
    ensures var m := MapOf(rows, width);
      && WellFormed(m)
      && |m.tiles| == width * |rows|
      && Height(m) == |rows|
  {
    ConcatLength(rows, width);
    var m := MapOf(rows, width);
    assert |m.tiles| % U32Limit == |m.tiles|;
    DivOfProduct(|rows|, width);
  }

  /** In a map decoded from equal rows, the tile at column c of row r is the decoding of that character. */
  lemma MapOfRows(rows: seq<string>, width: nat, c: nat, r: nat)
    requires 0 < width < U32Limit && |rows| * width < U32Limit
    requires Rectangular(rows, width)
    requires c < width && r < |rows|
    ensures var m := MapOf(rows, width);
      && WellFormed(m)
      && InBounds(m, c, r)
      && Index(m, c, r) < |m.tiles|
      && TileAt(m, c, r) == TileOf(rows[r][c])
  {
    var m := MapOf(rows, width);
    MapOfShape(rows, width);
    ConcatRowMajor(rows, width, r, c);
    IndexIsRowMajor(m, c, r);
  }

  /** The map's index of cell (c, r) is the row-major position r * width + c. */
  lemma IndexIsRowMajor(m: Map, c: nat, r: nat)
    ensures Index(m, c, r) == r * m.width + c
  {
    assert m.width * r == r * m.width;
  }

  /**
    A cell of a map decoded from equal rows can be walked on exactly when it lies
    within the rows and its character does not decode to a wall.
  */
  lemma WalkableAtRows(rows: seq<string>, width: nat, x: int, y: int)
    requires 0 < width < U32Limit && |rows| * width < U32Limit
    requires Rectangular(rows, width)
    ensures WellFormed(MapOf(rows, width))
    ensures WalkableAt(MapOf(rows, width), x, y) <==>
      0 <= x < width && 0 <= y < |rows| && TileOf(rows[y][x]) != Wall
  {
    MapOfShape(rows, width);
    if 0 <= x < width && 0 <= y < |rows| {
      MapOfRows(rows, width, x, y);
    }
  }

  lemma DivOfProduct(a: nat, b: nat)
    requires b > 0
    ensures (a * b) / b == a
  {
    var q, k := (a * b) / b, (a * b) % b;
    var d := a - q;
    assert b * d == k by {
      assert a * b == b * q + k;
      assert b * d == b * a - b * q;
    }
    MulBySteps(b, d);
  }

  /** A multiple of a positive b is at least b, at most -b, or zero. */
  lemma MulBySteps(b: int, d: int)
    requires b > 0
    ensures d >= 1 ==> b * d >= b
    ensures d <= -1 ==> b * d <= -b
  {
    if d >= 1 {
      assert b * d == b + b * (d - 1);
    } else if d <= -1 {
      assert b * d == -b + b * (d + 1);
    }
  }

  /** The server's 28 by 31 map has 868 tiles. */
  lemma StandardMapSize(rows: seq<string>)
    requires |rows| == 31 && Rectangular(rows, 28)
    ensures |DecodeContent(rows)| == 868
  {
    ConcatLength(rows, 28);
  }

  /** What a message is, once decoded. */
  datatype Message<S> = Welcome(state: S) | Update(state: S) | Dead | EndOfRound | StartOfRound

  /** Why a message could not be decoded. */
  datatype Error<E> = MissingGamestate | DeserializationError(cause: E) | UnknownMessageType

  /**
    The outcomes of parsing one raw message three ways: as the base record (its
    `messagetype`, or nothing when that parse fails), as a game state (the shape of
    a welcome), and as a state-update wrapper around a game state.
  */
  datatype Parsed<S, E> = Parsed(messageType: Option<string>, asWelcome: Result<S, E>, asUpdate: Result<S, E>)

  /** Decodes a message by dispatching on its `messagetype`. */
  function MessageFromStr<S, E>(p: Parsed<S, E>): (r: Result<Message<S>, Error<E>>)
    ensures r.Ok? ==> p.messageType == Some(MessageTypes.Name(KindOf(r.value)))
  {
    match p.messageType
    case None => Err(MissingGamestate)
    case Some(name) =>
      if name == "welcome" then
        match p.asWelcome
        case Ok(s) => Ok(Welcome(s))
        case Err(e) => Err(DeserializationError(e))
      else if name == "stateupdate" then
        match p.asUpdate
        case Ok(s) => Ok(Update(s))
        case Err(e) => Err(DeserializationError(e))
      else if name == "dead" then Ok(Dead)
      else if name == "endofround" then Ok(EndOfRound)
      else if name == "startofround" then Ok(StartOfRound)
      else Err(UnknownMessageType)
  }

  /** The message kind a decoded message has. */
  function KindOf<S>(msg: Message<S>): MessageTypes.MessageType
  {
    match msg
    case Welcome(_) => MessageTypes.Welcome
    case Update(_) => MessageTypes.StateUpdate
    case Dead => MessageTypes.Dead
    case EndOfRound => MessageTypes.EndOfRound
    case StartOfRound => MessageTypes.StartOfRound
  }

  /**
    The dispatch agrees with the message-type names: a name that is not one of
    them is an unknown message type, a body-less kind is decoded whatever the
    bodies say, a welcome or state update carries its own body or its parse error,
    and a failed base parse is a missing game state.
  */
  lemma DispatchFollowsMessageType<S, E>(p: Parsed<S, E>)
    ensures p.messageType.None? ==> MessageFromStr(p) == Err(MissingGamestate)
    ensures p.messageType.Some? ==>
      match MessageTypes.FromStr(p.messageType.value)
      case Err(_) => MessageFromStr(p) == Err(UnknownMessageType)
      case Ok(t) =>
        match t
        case Welcome =>
          MessageFromStr(p) == if p.asWelcome.Ok? then Ok(Welcome(p.asWelcome.value))
                               else Err(DeserializationError(p.asWelcome.error))
        case StateUpdate =>
          MessageFromStr(p) == if p.asUpdate.Ok? then Ok(Update(p.asUpdate.value))
                               else Err(DeserializationError(p.asUpdate.error))
        case Dead => MessageFromStr(p) == Ok(Dead)
        case EndOfRound => MessageFromStr(p) == Ok(EndOfRound)
        case StartOfRound => MessageFromStr(p) == Ok(StartOfRound)
  {
  }

  /** A decoded message's kind is the one its `messagetype` names. */
  lemma DecodedKindMatchesName<S, E>(p: Parsed<S, E>)
    requires MessageFromStr(p).Ok?
    ensures p.messageType.Some?
    ensures MessageTypes.FromStr(p.messageType.value) == Ok(KindOf(MessageFromStr(p).value))
  {
  }

  /** Only a failed base parse reports a missing game state; only an unknown name reports an unknown type. */
  lemma ErrorsHaveOneCause<S, E>(p: Parsed<S, E>)
    ensures MessageFromStr(p) == Err(MissingGamestate) <==> p.messageType.None?
    ensures MessageFromStr(p) == Err(UnknownMessageType) <==>
      p.messageType.Some? && MessageTypes.FromStr(p.messageType.value).Err?
  {
  }
}
