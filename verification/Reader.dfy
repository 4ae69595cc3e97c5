/**
  The decoder as the program runs it: a reader object whose cursor every read moves on.  Each
  method is proved equal to the decoding function of the same buffer and cursor.
*/
module Readers {
  import opened Prelude
  import opened Protocol

  /** The outcome of a method is the outcome of the function, cursor included. */
  ghost predicate Moved<T>(r: Result<T>, spec: Read<T>, pos: int) {
    match r
    case Ok(value) => spec == Ok((value, pos))
    case Err(error) => spec == Err(error)
  }

  /** Items already read, put before the outcome of reading the others. */
  function Prepend<T>(items: seq<T>, rest: Read<seq<T>>): Read<seq<T>> {
    match rest
    case Ok((more, end)) => Ok((items + more, end))
    case Err(error) => Err(error)
  }

  lemma PrependNothing<T>(rest: Read<seq<T>>)
    ensures Prepend([], rest) == rest
  {
    if rest.Ok? {
      assert [] + rest.value.0 == rest.value.0;
    }
  }

  lemma NoneLeft<T>(one: (Bytes, int) -> Read<T>, buf: Bytes, items: seq<T>, pos: int)
    ensures Prepend(items, ReadMany(one, buf, pos, 0)) == Ok((items, pos))
  {
    NoMore(items, pos);
  }

  lemma NoMore<T>(items: seq<T>, pos: int)
    ensures Prepend(items, Ok(([], pos))) == Ok((items, pos))
  {
    assert items + [] == items;
  }

  /** One turn of a reading loop. */
  lemma NextItem<T>(one: (Bytes, int) -> Read<T>, buf: Bytes, items: seq<T>, pos: int, count: nat, r: Result<T>,
                    next: int)
    requires count > 0 && Moved(r, one(buf, pos), next)
    ensures Prepend(items, ReadMany(one, buf, pos, count)) ==
            if r.Ok? then Prepend(items + [r.value], ReadMany(one, buf, next, count - 1)) else Err(r.error)
  {
    if r.Ok? {
      var rest := ReadMany(one, buf, next, count - 1);
      if rest.Ok? {
        assert items + ([r.value] + rest.value.0) == items + [r.value] + rest.value.0;
      }
    }
  }

  class Reader {
    const buf: Bytes
    var pos: int
    /** No read so far moved the cursor back or out of the buffer. */
    ghost var forward: bool

    /** What holds of a read that began with this flag at this cursor: it did not either. */
    ghost predicate Stays(was: bool, from: int)
      reads this
    {
      was && 0 <= from <= |buf| ==> forward && from <= pos <= |buf|
    }

    /** Starts past the byte that tells the kind of message. */
    constructor (buf: Bytes)
      ensures this.buf == buf && pos == 1 && forward
    {
      this.buf := buf;
      pos, forward := 1, true;
    }

    method Take(n: int) returns (r: Result<Bytes>)
      modifies this
      ensures Moved(r, Protocol.Take(buf, old(pos), n), pos)
      ensures 0 <= n ==> Stays(old(forward), old(pos))
    {
      var end := pos + n;
      if end > |buf| {
        return Err(ProtocolError);
      }
      var chunk := Slice(buf, pos, end);
      forward := forward && pos <= end <= |buf|;
      pos := end;
      r := Ok(chunk);
    }

    /** A tag or a flag byte; an empty chunk cannot be indexed. */
    method UInt8() returns (r: Result<byte>)
      modifies this
      ensures Moved(r, ReadByte(buf, old(pos)), pos)
      ensures Stays(old(forward), old(pos))
    {
      var chunk :- Take(1);
      if chunk == [] {
        return Err(RuntimeError);
      }
      r := Ok(chunk[0]);
    }

    method UInt(width: nat) returns (r: Result<nat>)
      modifies this
      ensures Moved(r, ReadUnsigned(buf, old(pos), width), pos)
      ensures Stays(old(forward), old(pos))
    {
      var chunk :- Take(width);
      if |chunk| != width {
        return Err(RuntimeError);
      }
      r := Ok(Unsigned(chunk));
    }

    method Int(width: nat) returns (r: Result<int>)
      modifies this
      ensures Moved(r, ReadSigned(buf, old(pos), width), pos)
      ensures Stays(old(forward), old(pos))
    {
      var chunk :- Take(width);
      if |chunk| != width {
        return Err(RuntimeError);
      }
      r := Ok(Signed(chunk));
    }

    method Timestamp() returns (r: Result<int>)
      modifies this
      ensures Moved(r, ReadTimestamp(buf, old(pos)), pos)
      ensures Stays(old(forward), old(pos))
    {
      var micros :- Int(8);
      if micros < MIN_MICROS || MAX_MICROS < micros {
        return Err(OverflowError);
      }
      r := Ok(micros);
    }

    method CString() returns (r: Result<Text>)
      modifies this
      ensures Moved(r, ReadCString(buf, old(pos)), pos)
      ensures Stays(old(forward), old(pos))
    {
      var end := FindZero(buf, Clamp(pos, |buf|));
      if end.None? {
        return Err(ProtocolError);
      }
      var text := Slice(buf, pos, end.value);
      if !ValidUtf8(text) {
        return Err(UnicodeError);
      }
      ZeroIsAhead(buf, Clamp(pos, |buf|));
      forward := forward && pos <= end.value + 1 <= |buf|;
      pos := end.value + 1;
      r := Ok(text);
    }

    method Cell() returns (r: Result<Cell>)
      modifies this
      ensures Moved(r, ReadCell(buf, old(pos)), pos)
      ensures CellOk(buf, old(pos)) ==> Stays(old(forward), old(pos))
    {
      var category :- UInt8();
      if category == N {
        return Ok(NullCell);
      }
      if category == U {
        return Ok(UnchangedCell);
      }
      if category == T {
        var length :- Int(4);
        var chunk :- Take(length);
        if !ValidUtf8(chunk) {
          return Err(UnicodeError);
        }
        return Ok(TextCell(chunk));
      }
      r := Err(ProtocolError);
    }

    method Cells(count: nat) returns (r: Result<Tuple>)
      modifies this
      ensures Moved(r, ReadMany(ReadCell, buf, old(pos), count), pos)
      ensures LengthsOk(buf, old(pos), count) ==> Stays(old(forward), old(pos))
    {
      r := CellList(count, ReadMany(ReadCell, buf, pos, count), LengthsOk(buf, pos, count));
    }

    /** The loop over cells; `all` is what it has to yield. */
    method CellList(count: nat, ghost all: Read<Tuple>, ghost lengthsOk: bool) returns (r: Result<Tuple>)
      requires all == ReadMany(ReadCell, buf, pos, count) && lengthsOk == LengthsOk(buf, pos, count)
      modifies this
      ensures Moved(r, all, pos)
      ensures lengthsOk ==> Stays(old(forward), old(pos))
    {
      var values: Tuple := [];
      ghost var rest := all;
      PrependNothing(all);
      for left := count downto 0
        invariant rest == ReadMany(ReadCell, buf, pos, left)
        invariant Prepend(values, rest) == all
        invariant lengthsOk ==> LengthsOk(buf, pos, left) && Stays(old(forward), old(pos))
      {
        var cell;
        cell, rest := NextCell(values, rest, left);
        if cell.Err? {
          return Err(cell.error);
        }
        values := values + [cell.value];
      }
      assert rest == Ok(([], pos));
      NoMore(values, pos);
      r := Ok(values);
    }

    method NextCell(ghost values: Tuple, ghost rest: Read<Tuple>, ghost left: nat)
      returns (r: Result<Cell>, ghost others: Read<Tuple>)
      requires rest == ReadMany(ReadCell, buf, pos, left + 1)
      modifies this
      ensures LengthsOk(buf, old(pos), left + 1) ==>
                Stays(old(forward), old(pos)) && (r.Ok? ==> LengthsOk(buf, pos, left))
      ensures r.Ok? ==> others == ReadMany(ReadCell, buf, pos, left)
      ensures Prepend(values, rest) == if r.Ok? then Prepend(values + [r.value], others) else Err(r.error)
    {
      r := Cell();
      others := ReadMany(ReadCell, buf, pos, left);
      NextItem(ReadCell, buf, values, old(pos), left + 1, r, pos);
    }

    method TupleData() returns (r: Result<Tuple>)
      modifies this
      ensures Moved(r, ReadTuple(buf, old(pos)), pos)
      ensures TupleOk(buf, old(pos)) ==> Stays(old(forward), old(pos))
    {
      var count :- UInt(2);
      r := Cells(count);
    }

    method ColumnData() returns (r: Result<Column>)
      modifies this
      ensures Moved(r, ReadColumn(buf, old(pos)), pos)
      ensures Stays(old(forward), old(pos))
    {
      var flags :- UInt8();
      var name :- CString();
      var typeOid :- UInt(4);
      var typeMod :- Int(4);
      r := Ok(Column(name, typeOid, typeMod, flags % 2 == 1));
    }

    method Columns(count: nat) returns (r: Result<seq<Column>>)
      modifies this
      ensures Moved(r, ReadMany(ReadColumn, buf, old(pos), count), pos)
      ensures Stays(old(forward), old(pos))
    {
      r := ColumnList(count, ReadMany(ReadColumn, buf, pos, count));
    }

    /** The loop over columns; `all` is what it has to yield. */
    method ColumnList(count: nat, ghost all: Read<seq<Column>>) returns (r: Result<seq<Column>>)
      requires all == ReadMany(ReadColumn, buf, pos, count)
      modifies this
      ensures Moved(r, all, pos)
      ensures Stays(old(forward), old(pos))
    {
      var columns: seq<Column> := [];
      ghost var rest := all;
      PrependNothing(all);
      for left := count downto 0
        invariant rest == ReadMany(ReadColumn, buf, pos, left)
        invariant Prepend(columns, rest) == all
        invariant Stays(old(forward), old(pos))
      {
        var column;
        column, rest := NextColumn(columns, rest, left);
        if column.Err? {
          return Err(column.error);
        }
        columns := columns + [column.value];
      }
      assert rest == Ok(([], pos));
      NoMore(columns, pos);
      r := Ok(columns);
    }

    method NextColumn(ghost columns: seq<Column>, ghost rest: Read<seq<Column>>, ghost left: nat)
      returns (r: Result<Column>, ghost others: Read<seq<Column>>)
      requires rest == ReadMany(ReadColumn, buf, pos, left + 1)
      modifies this
      ensures Stays(old(forward), old(pos))
      ensures r.Ok? ==> others == ReadMany(ReadColumn, buf, pos, left)
      ensures Prepend(columns, rest) == if r.Ok? then Prepend(columns + [r.value], others) else Err(r.error)
    {
      r := ColumnData();
      others := ReadMany(ReadColumn, buf, pos, left);
      NextItem(ReadColumn, buf, columns, old(pos), left + 1, r, pos);
    }

    method RelIds(count: nat) returns (r: Result<seq<nat>>)
      modifies this
      ensures Moved(r, ReadMany(ReadRelId, buf, old(pos), count), pos)
      ensures Stays(old(forward), old(pos))
    {
      var relIds: seq<nat> := [];
      ghost var all := ReadMany(ReadRelId, buf, pos, count);
      PrependNothing(all);
      for left := count downto 0
        invariant Prepend(relIds, ReadMany(ReadRelId, buf, pos, left)) == all
        invariant Stays(old(forward), old(pos))
      {
        ghost var at := pos;
        var relId := UInt(4);
        NextItem(ReadRelId, buf, relIds, at, left + 1, relId, pos);
        if relId.Err? {
          return Err(relId.error);
        }
        relIds := relIds + [relId.value];
      }
      NoneLeft(ReadRelId, buf, relIds, pos);
      r := Ok(relIds);
    }

    // ---- one method for each kind of message ---------------------------------------

    method BeginData() returns (r: Result<Message>)
      requires pos == 1
      modifies this
      ensures Moved(r, DecodeBegin(buf), pos)
      ensures Stays(old(forward), old(pos))
    {
      var finalLsn :- UInt(8);
      var commitTs :- Timestamp();
      var xid :- UInt(4);
      r := Ok(Begin(finalLsn, commitTs, xid));
    }

    method CommitData() returns (r: Result<Message>)
      requires pos == 1
      modifies this
      ensures Moved(r, DecodeCommit(buf), pos)
      ensures Stays(old(forward), old(pos))
    {
      var flags :- UInt8();
      var commitLsn :- UInt(8);
      var endLsn :- UInt(8);
      var commitTs :- Timestamp();
      r := Ok(Commit(flags, commitLsn, endLsn, commitTs));
    }

    method OriginData() returns (r: Result<Message>)
      requires pos == 1
      modifies this
      ensures Moved(r, DecodeOrigin(buf), pos)
      ensures Stays(old(forward), old(pos))
    {
      var commitLsn :- UInt(8);
      var name :- CString();
      r := Ok(Origin(commitLsn, name));
    }

    method RelationData() returns (r: Result<Message>)
      requires pos == 1
      modifies this
      ensures Moved(r, DecodeRelation(buf), pos)
      ensures Stays(old(forward), old(pos))
    {
      var relId :- UInt(4);
      var schema :- CString();
      var name :- CString();
      var identity :- UInt8();
      if !IsReplicaIdentity(identity) {
        return Err(ProtocolError);
      }
      var count :- UInt(2);
      var columns :- Columns(count);
      r := Ok(RelationMsg(Relation(relId, schema, name, identity, columns)));
    }

    method TypeData() returns (r: Result<Message>)
      requires pos == 1
      modifies this
      ensures Moved(r, DecodeType(buf), pos)
      ensures Stays(old(forward), old(pos))
    {
      var typeOid :- UInt(4);
      var schema :- CString();
      var name :- CString();
      r := Ok(TypeInfo(typeOid, schema, name));
    }

    method InsertData() returns (r: Result<Message>)
      requires pos == 1
      modifies this
      ensures Moved(r, DecodeInsert(buf), pos)
      ensures TupleOk(buf, 6) ==> Stays(old(forward), old(pos))
    {
      var relId :- UInt(4);
      var tag :- UInt8();
      if tag != TAG_NEW {
        return Err(ProtocolError);
      }
      var tuple :- TupleData();
      r := Ok(InsertMsg(relId, tuple));
    }

    method UpdateData() returns (r: Result<Message>)
      requires pos == 1
      modifies this
      ensures Moved(r, DecodeUpdate(buf), pos)
      ensures TuplesOk(buf) ==> Stays(old(forward), old(pos))
    {
      var relId :- UInt(4);
      var before: Option<Tuple>, key: Option<Tuple> := None, None;
      var tag :- UInt8();
      if tag == TAG_KEY {
        var tuple :- TupleData();
        key := Some(tuple);
        tag :- UInt8();
      } else if tag == TAG_OLD {
        var tuple :- TupleData();
        before := Some(tuple);
        tag :- UInt8();
      }
      r := NewData(relId, before, key, tag);
    }

    /** The mandatory new tuple of an Update, its tag read already. */
    method NewData(relId: nat, before: Option<Tuple>, key: Option<Tuple>, tag: byte) returns (r: Result<Message>)
      modifies this
      ensures Moved(r, DecodeNew(buf, old(pos), relId, before, key, tag), pos)
      ensures TupleOk(buf, old(pos)) ==> Stays(old(forward), old(pos))
    {
      if tag != TAG_NEW {
        return Err(ProtocolError);
      }
      var tuple :- TupleData();
      r := Ok(UpdateMsg(relId, before, key, tuple));
    }

    method DeleteData() returns (r: Result<Message>)
      requires pos == 1
      modifies this
      ensures Moved(r, DecodeDelete(buf), pos)
      ensures TupleOk(buf, 6) ==> Stays(old(forward), old(pos))
    {
      var relId :- UInt(4);
      var tag :- UInt8();
      if tag == TAG_KEY {
        var tuple :- TupleData();
        return Ok(DeleteMsg(relId, None, Some(tuple)));
      }
      if tag == TAG_OLD {
        var tuple :- TupleData();
        return Ok(DeleteMsg(relId, Some(tuple), None));
      }
      r := Err(ProtocolError);
    }

    method TruncateData() returns (r: Result<Message>)
      requires pos == 1
      modifies this
      ensures Moved(r, DecodeTruncate(buf), pos)
      ensures Stays(old(forward), old(pos))
    {
      var count :- UInt(4);
      var options :- UInt8();
      var relIds :- RelIds(count);
      r := Ok(TruncateMsg(options, relIds));
    }
  }

  /** decode_message. */
  method DecodeMessage(buf: Bytes) returns (r: Result<Message>)
    ensures r == Decode(buf)
  {
    if buf == [] {
      return Err(ProtocolError);
    }
    var reader := new Reader(buf);
    r := Dispatch(reader);
  }

  /** The decoder of the message kind, driven by the reader.  While no text length is negative, no
      read of it moves the cursor back or out of the buffer, whether or not decoding succeeds. */
  method Dispatch(reader: Reader) returns (r: Result<Message>)
    requires reader.buf != [] && reader.pos == 1
    modifies reader
    ensures Moved(r, DecodeAt(reader.buf), reader.pos)
    ensures LengthsOkIn(reader.buf) && old(reader.forward) ==> reader.forward && 1 <= reader.pos <= |reader.buf|
  {
    var kind := reader.buf[0];
    if kind == 'B' as int {
      r := reader.BeginData();
    } else if kind == 'C' as int {
      r := reader.CommitData();
    } else if kind == 'O' as int {
      r := reader.OriginData();
    } else if kind == 'R' as int {
      r := reader.RelationData();
    } else if kind == 'Y' as int {
      r := reader.TypeData();
    } else if kind == 'I' as int {
      r := reader.InsertData();
    } else if kind == 'U' as int {
      r := reader.UpdateData();
    } else if kind == 'D' as int {
      r := reader.DeleteData();
    } else if kind == 'T' as int {
      r := reader.TruncateData();
    } else {
      r := Err(ProtocolError);
    }
  }

  // ---- where the cursor goes -------------------------------------------------------------

  /** The cursor did not move back and is inside the buffer. */
  ghost predicate Forward<T>(r: Read<T>, buf: Bytes, pos: int) {
    r.Ok? ==> pos <= r.value.1 <= |buf|
  }

  /** A take keeps the cursor moving forward inside the buffer exactly when its length is not negative. */
  lemma TakeIsForwardIff(buf: Bytes, pos: int, n: int)
    requires 0 <= pos <= |buf| && pos + n <= |buf|
    ensures Protocol.Take(buf, pos, n).Ok?
    ensures Forward(Protocol.Take(buf, pos, n), buf, pos) <==> 0 <= n
    ensures 0 <= n ==> Protocol.Take(buf, pos, n).value.0 == buf[pos..pos + n]
  {
  }

  /** No text cell met from here on has a negative length. */
  ghost predicate LengthsOk(buf: Bytes, pos: int, count: nat)
    decreases count
  {
    count == 0 ||
    (CellOk(buf, pos) && (ReadCell(buf, pos).Ok? ==> LengthsOk(buf, ReadCell(buf, pos).value.1, count - 1)))
  }

  /** If there is a text cell here, its length is not negative. */
  ghost predicate CellOk(buf: Bytes, pos: int) {
    var at := ReadByte(buf, pos);
    at.Ok? && at.value.0 == T ==>
      ReadSigned(buf, at.value.1, 4).Ok? ==> ReadSigned(buf, at.value.1, 4).value.0 >= 0
  }

  /** The tuple at the cursor has no text cell of negative length. */
  ghost predicate TupleOk(buf: Bytes, pos: int) {
    ReadUnsigned(buf, pos, 2).Ok? ==> LengthsOk(buf, pos + 2, ReadUnsigned(buf, pos, 2).value.0)
  }

  lemma {:induction false} ZeroIsAhead(buf: Bytes, from: nat)
    requires from <= |buf|
    ensures FindZero(buf, from).Some? ==> from <= FindZero(buf, from).value < |buf|
    decreases |buf| - from
  {
    if from < |buf| {
      ZeroIsAhead(buf, from + 1);
    }
  }

  /** The tuples of an Insert, Update or Delete, each where the one before it ends. */
  ghost predicate LengthsOkIn(buf: Bytes)
    requires buf != []
  {
    var kind := buf[0];
    && (kind == 'I' as int || kind == 'D' as int ==> TupleOk(buf, 6))
    && (kind == 'U' as int ==> TuplesOk(buf))
  }

  /** The old and the new tuple of an Update. */
  ghost predicate TuplesOk(buf: Bytes) {
    TupleOk(buf, 6) && (ReadTuple(buf, 6).Ok? ==> TupleOk(buf, ReadTuple(buf, 6).value.1 + 1))
  }

  /** An Insert of two text cells; the length of each is -5. */
  const NEGATIVE: Bytes := ['I' as int, 0, 0, 0, 1, TAG_NEW, 0, 2, T, 255, 255, 255, 251]

  lemma NegativeCellSteps()
    ensures ReadCell(NEGATIVE, 8) == Ok((TextCell([]), 8))
  {
    assert NEGATIVE[9..13] == [255, 255, 255, 251];
    assert NEGATIVE[8..9] == [T];
    UnsignedOfFour(255, 255, 255, 251);
    assert Pow256(4) == 0x1_0000_0000;
  }

  lemma UnsignedOfFour(a: byte, b: byte, c: byte, d: byte)
    ensures Unsigned([a, b, c, d]) == ((a * 256 + b) * 256 + c) * 256 + d
  {
    assert [a, b, c, d][..3] == [a, b, c] && [a, b, c][..2] == [a, b] && [a, b][..1] == [a] && [a][..0] == [];
    assert Unsigned([a]) == a;
    assert Unsigned([a, b]) == a * 256 + b;
    assert Unsigned([a, b, c]) == (a * 256 + b) * 256 + c;
  }

  /** Without that guard the cursor can move back: one encoded cell is read twice, and accepted. */
  lemma NegativeLengthIsReadAgain()
    ensures Decode(NEGATIVE) == Ok(InsertMsg(1, [TextCell([]), TextCell([])]))
    ensures !Forward(ReadCell(NEGATIVE, 8), NEGATIVE, 9)
  {
    NegativeCellSteps();
    UnsignedOfFour(0, 0, 0, 1);
    assert NEGATIVE[1..5] == [0, 0, 0, 1] && NEGATIVE[5..6] == [TAG_NEW] && NEGATIVE[6..8] == [0, 2];
    assert [0, 2][..1] == [0] && [0][..0] == [];
    assert Unsigned([0]) == 0;
    assert Unsigned([0, 2]) == 2;
    var cell := TextCell([]);
    NoneLeft(ReadCell, NEGATIVE, [cell, cell], 8);
    NextItem(ReadCell, NEGATIVE, [cell], 8, 1, Ok(cell), 8);
    NextItem(ReadCell, NEGATIVE, [], 8, 2, Ok(cell), 8);
    PrependNothing(ReadMany(ReadCell, NEGATIVE, 8, 2));
    assert [] + [cell] == [cell] && [cell] + [cell] == [cell, cell];
    assert ReadTuple(NEGATIVE, 6) == Ok(([TextCell([]), TextCell([])], 8));
  }
}
