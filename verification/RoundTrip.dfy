/**
  The decoder against the encoder.  Each part is proved once, for a buffer that agrees with the
  encoding as far as the buffer goes: a long enough buffer yields the value, a shorter one is a
  ProtocolError.  Round trip and rejection of every strict prefix are two readings of that.
*/
module RoundTrip {
  import opened Prelude
  import opened Protocol
  import opened Wire

  // ---- integers ------------------------------------------------------------------

  lemma UnsignedSnoc(bytes: Bytes, last: byte)
    ensures Unsigned(bytes + [last]) == Unsigned(bytes) * 0x100 + last
  {
    assert (bytes + [last])[..|bytes|] == bytes;
  }

  lemma UnsignedTwo(a: byte, b: byte)
    ensures Unsigned([a, b]) == a * 0x100 + b
  {
    UnsignedSnoc([], a);
    UnsignedSnoc([a], b);
    assert [] + [a] == [a] && [a] + [b] == [a, b];
  }

  lemma UnsignedTwoMore(bytes: Bytes, a: byte, b: byte)
    ensures Unsigned(bytes + [a, b]) == (Unsigned(bytes) * 0x100 + a) * 0x100 + b
  {
    UnsignedSnoc(bytes, a);
    UnsignedSnoc(bytes + [a], b);
    assert bytes + [a] + [b] == bytes + [a, b];
  }

  lemma U16Value(n: nat)
    requires Fits16(n)
    ensures Unsigned(U16(n)) == n
  {
    UnsignedTwo(n / 0x100 % 0x100, n % 0x100);
  }

  lemma FourBytes(n: nat)
    requires Fits32(n)
    ensures ((n / 0x100_0000 % 0x100 * 0x100 + n / 0x1_0000 % 0x100) * 0x100 + n / 0x100 % 0x100) * 0x100
            + n % 0x100 == n
  {
    assert n / 0x100_0000 % 0x100 * 0x100 + n / 0x1_0000 % 0x100 == n / 0x1_0000;
    assert n / 0x1_0000 * 0x100 + n / 0x100 % 0x100 == n / 0x100;
  }

  lemma U32Value(n: nat)
    requires Fits32(n)
    ensures Unsigned(U32(n)) == n
  {
    var a, b, c, d := n / 0x100_0000 % 0x100, n / 0x1_0000 % 0x100, n / 0x100 % 0x100, n % 0x100;
    UnsignedTwo(a, b);
    UnsignedTwoMore([a, b], c, d);
    assert [a, b] + [c, d] == U32(n);
    FourBytes(n);
  }

  lemma UnsignedFourMore(bytes: Bytes, more: Bytes)
    requires |more| == 4
    ensures Unsigned(bytes + more) == Unsigned(bytes) * 0x1_0000_0000 + Unsigned(more)
  {
    var head, tail := more[..2], more[2..];
    assert more == head + tail && head == [more[0], more[1]] && tail == [more[2], more[3]];
    UnsignedTwo(more[0], more[1]);
    UnsignedTwoMore(head, more[2], more[3]);
    UnsignedTwoMore(bytes, more[0], more[1]);
    UnsignedTwoMore(bytes + head, more[2], more[3]);
    assert bytes + head + tail == bytes + more;
  }

  lemma U64Value(n: nat)
    requires Fits64(n)
    ensures Unsigned(U64(n)) == n
  {
    U32Value(n / 0x1_0000_0000);
    U32Value(n % 0x1_0000_0000);
    UnsignedFourMore(U32(n / 0x1_0000_0000), U32(n % 0x1_0000_0000));
  }

  lemma Powers()
    ensures Pow256(4) == 0x1_0000_0000 && Pow256(8) == 0x1_0000_0000_0000_0000
  {
    assert Pow256(2) == 0x1_0000;
    assert Pow256(4) == 0x1_0000_0000;
    assert Pow256(6) == 0x1_0000_0000_0000;
  }

  lemma I32Value(n: int)
    requires FitsInt32(n)
    ensures Signed(I32(n)) == n
  {
    Powers();
    U32Value(n % 0x1_0000_0000);
  }

  lemma I64Value(n: int)
    requires -0x8000_0000_0000_0000 <= n < 0x8000_0000_0000_0000
    ensures Signed(I64(n)) == n
  {
    Powers();
    U64Value(n % 0x1_0000_0000_0000_0000);
  }

  // ---- text --------------------------------------------------------------------------

  lemma TwoInSequence(c: int, t: Text)
    requires 0x80 <= c < 0x800 && |t| >= 2 && t[0] == 0xC0 + c / 0x40 && t[1] == 0x80 + c % 0x40
    ensures SequenceLength(t) == 2
  {
  }

  lemma ThreeInSequence(c: int, t: Text)
    requires Scalar(c) && 0x800 <= c < 0x1_0000 && |t| >= 3
    requires t[0] == 0xE0 + c / 0x1000 && t[1] == 0x80 + c / 0x40 % 0x40 && t[2] == 0x80 + c % 0x40
    ensures SequenceLength(t) == 3
  {
  }

  lemma FourInSequence(c: int, t: Text)
    requires Scalar(c) && 0x1_0000 <= c && |t| >= 4
    requires t[0] == 0xF0 + c / 0x4_0000 && t[1] == 0x80 + c / 0x1000 % 0x40
    requires t[2] == 0x80 + c / 0x40 % 0x40 && t[3] == 0x80 + c % 0x40
    ensures SequenceLength(t) == 4
  {
  }

  /** The form of a scalar value is one sequence, whatever follows it. */
  lemma OneSequence(c: int, t: Text)
    requires Scalar(c) && |t| >= |Utf8(c)| && forall i :: 0 <= i < |Utf8(c)| ==> t[i] == Utf8(c)[i]
    ensures SequenceLength(t) == |Utf8(c)|
  {
    if 0x80 <= c < 0x800 {
      TwoInSequence(c, t);
    } else if 0x800 <= c < 0x1_0000 {
      ThreeInSequence(c, t);
    } else if 0x1_0000 <= c {
      FourInSequence(c, t);
    }
  }

  lemma SequenceOf(c: int, rest: Text)
    requires Scalar(c)
    ensures SequenceLength(Utf8(c) + rest) == |Utf8(c)| && (Utf8(c) + rest)[|Utf8(c)|..] == rest
  {
    OneSequence(c, Utf8(c) + rest);
  }

  /** What the bytes after the first of a sequence add. */
  function Low6(b: byte): int { b - 0x80 }

  lemma TwoBytes(a: byte, b: byte) returns (c: int)
    requires Between(a, 0xC2, 0xDF) && Between(b, 0x80, 0xBF)
    ensures Scalar(c) && Utf8(c) == [a, b]
  {
    c := 0x40 * (a as int - 0xC0) + Low6(b);
  }

  lemma ThreeBytes(a: byte, b: byte, d: byte) returns (c: int)
    requires Between(a, 0xE0, 0xEF) && Between(b, 0x80, 0xBF) && Between(d, 0x80, 0xBF)
    requires (a == 0xE0 ==> b >= 0xA0) && (a == 0xED ==> b <= 0x9F)
    ensures Scalar(c) && Utf8(c) == [a, b, d]
  {
    c := 0x1000 * (a as int - 0xE0) + 0x40 * Low6(b) + Low6(d);
    assert c / 0x40 == 0x40 * (a as int - 0xE0) + Low6(b);
  }

  lemma FourBytesOf(a: byte, b: byte, d: byte, e: byte) returns (c: int)
    requires Between(a, 0xF0, 0xF4) && Between(b, 0x80, 0xBF) && Between(d, 0x80, 0xBF) && Between(e, 0x80, 0xBF)
    requires (a == 0xF0 ==> b >= 0x90) && (a == 0xF4 ==> b <= 0x8F)
    ensures Scalar(c) && Utf8(c) == [a, b, d, e]
  {
    c := 0x4_0000 * (a as int - 0xF0) + 0x1000 * Low6(b) + 0x40 * Low6(d) + Low6(e);
    assert c / 0x40 == 0x1000 * (a as int - 0xF0) + 0x40 * Low6(b) + Low6(d);
    assert c / 0x1000 == 0x40 * (a as int - 0xF0) + Low6(b);
  }

  /** A sequence that the decoder finds at the head of a text is the form of a scalar value. */
  lemma HeadIsUtf8(t: Text) returns (c: int)
    requires t != [] && 0 < SequenceLength(t)
    ensures SequenceLength(t) <= |t| && Scalar(c) && Utf8(c) == t[..SequenceLength(t)]
  {
    var n := SequenceLength(t);
    if n == 1 {
      c := t[0];
    } else if n == 2 {
      c := TwoBytes(t[0], t[1]);
    } else if n == 3 {
      c := ThreeBytes(t[0], t[1], t[2]);
    } else {
      c := FourBytesOf(t[0], t[1], t[2], t[3]);
    }
    assert t[..n] == Utf8(c);
  }

  lemma {:induction false} ScalarsAreValid(cs: seq<int>)
    requires Scalars(cs)
    ensures ValidUtf8(Utf8All(cs))
  {
    if cs != [] {
      SequenceOf(cs[0], Utf8All(cs[1..]));
      ScalarsAreValid(cs[1..]);
    }
  }

  lemma OneMoreScalar(c: int, cs: seq<int>, t: Text, n: nat)
    requires Scalar(c) && Scalars(cs) && n <= |t| && Utf8(c) == t[..n] && Utf8All(cs) == t[n..]
    ensures IsText(t)
  {
    var all := [c] + cs;
    assert all[1..] == cs && t[..n] + t[n..] == t;
    assert Scalars(all) && Utf8All(all) == t;
  }

  lemma {:induction false} ValidIsText(t: Text)
    requires ValidUtf8(t)
    ensures IsText(t)
    decreases |t|
  {
    if t == [] {
      assert Utf8All([]) == t;
    } else {
      var n := SequenceLength(t);
      var head := HeadIsUtf8(t);
      ValidIsText(t[n..]);
      var cs :| Scalars(cs) && Utf8All(cs) == t[n..];
      OneMoreScalar(head, cs, t, n);
    }
  }

  /** What the decoder takes for UTF-8 is exactly what scalar values are written as. */
  lemma ValidUtf8Iff(t: Text)
    ensures ValidUtf8(t) <==> IsText(t)
  {
    if IsText(t) {
      var cs :| Scalars(cs) && Utf8All(cs) == t;
      ScalarsAreValid(cs);
    } else if ValidUtf8(t) {
      ValidIsText(t);
    }
  }

  // ---- a buffer and an encoding -----------------------------------------------------

  /** As far as it goes, the buffer holds the bytes at the cursor. */
  ghost predicate Agrees(b: Bytes, pos: int, bytes: Bytes) {
    0 <= pos <= |b| && forall i :: 0 <= i < |bytes| && pos + i < |b| ==> b[pos + i] == bytes[i]
  }

  /** The read yields x and moves n bytes on, or reports that the buffer is cut before that. */
  ghost predicate Reads<T>(r: Read<T>, x: T, b: Bytes, pos: int, n: nat) {
    r == if pos + n <= |b| then Ok((x, pos + n)) else Err(ProtocolError)
  }

  lemma Parts(b: Bytes, pos: int, x: Bytes, y: Bytes)
    requires Agrees(b, pos, x + y)
    ensures Agrees(b, pos, x)
    ensures pos + |x| <= |b| ==> Agrees(b, pos + |x|, y)
  {
    assert forall i :: 0 <= i < |x| ==> (x + y)[i] == x[i];
    assert forall i :: 0 <= i < |y| ==> (x + y)[|x| + i] == y[i];
    if pos + |x| <= |b| {
      forall i | 0 <= i < |y| && pos + |x| + i < |b| ensures b[pos + |x| + i] == y[i] {
        assert b[pos + (|x| + i)] == (x + y)[|x| + i];
      }
    }
  }

  lemma NothingMore(x: Bytes)
    ensures x + [] == x
  {
  }

  lemma TakeReads(b: Bytes, pos: int, bytes: Bytes)
    requires Agrees(b, pos, bytes)
    ensures Reads(Take(b, pos, |bytes|), bytes, b, pos, |bytes|)
  {
    if pos + |bytes| <= |b| {
      assert Slice(b, pos, pos + |bytes|) == bytes;
    }
  }

  lemma ByteReads(b: Bytes, pos: int, v: byte)
    requires Agrees(b, pos, [v])
    ensures Reads(ReadByte(b, pos), v, b, pos, 1)
  {
    TakeReads(b, pos, [v]);
  }

  lemma U16Reads(b: Bytes, pos: int, n: nat)
    requires Fits16(n) && Agrees(b, pos, U16(n))
    ensures Reads(ReadUnsigned(b, pos, 2), n, b, pos, 2)
  {
    TakeReads(b, pos, U16(n));
    U16Value(n);
  }

  lemma U32Reads(b: Bytes, pos: int, n: nat)
    requires Fits32(n) && Agrees(b, pos, U32(n))
    ensures Reads(ReadUnsigned(b, pos, 4), n, b, pos, 4)
  {
    TakeReads(b, pos, U32(n));
    U32Value(n);
  }

  lemma U64Reads(b: Bytes, pos: int, n: nat)
    requires Fits64(n) && Agrees(b, pos, U64(n))
    ensures Reads(ReadUnsigned(b, pos, 8), n, b, pos, 8)
  {
    TakeReads(b, pos, U64(n));
    U64Value(n);
  }

  lemma I32Reads(b: Bytes, pos: int, n: int)
    requires FitsInt32(n) && Agrees(b, pos, I32(n))
    ensures Reads(ReadSigned(b, pos, 4), n, b, pos, 4)
  {
    TakeReads(b, pos, I32(n));
    I32Value(n);
  }

  /** The times that the decoder takes are those of the years 1 to 9999. */
  lemma TimesAre(micros: int)
    ensures WfTimestamp(micros) <==> MIN_MICROS <= micros <= MAX_MICROS
  {
    assert DaysBefore(1) == 0 && DaysBefore(2000) == 730_119 && DaysBefore(10_000) == 3_652_059;
  }

  lemma TimestampReads(b: Bytes, pos: int, micros: int)
    requires WfTimestamp(micros) && Agrees(b, pos, I64(micros))
    ensures Reads(ReadTimestamp(b, pos), micros, b, pos, 8)
  {
    TakeReads(b, pos, I64(micros));
    TimesAre(micros);
    I64Value(micros);
  }

  /** A name as the decoder takes it. */
  predicate IsCString(t: Text) { ValidUtf8(t) && 0 !in t }

  lemma NamesAreCStrings(t: Text)
    requires WfName(t)
    ensures IsCString(t)
  {
    ValidUtf8Iff(t);
  }

  lemma CStringReads(b: Bytes, pos: int, t: Text)
    requires IsCString(t) && Agrees(b, pos, EncodeCString(t))
    ensures Reads(ReadCString(b, pos), t, b, pos, |EncodeCString(t)|)
  {
    Parts(b, pos, t, [0]);
    if pos + |t| < |b| {
      assert b[pos + |t| + 0] == [0][0];
      assert forall k :: pos <= k < pos + |t| ==> b[k] == t[k - pos];
      FindZeroFindsFirst(b, pos, pos + |t|);
      TakeReads(b, pos, t);
    } else {
      assert forall k :: pos <= k < |b| ==> b[k] == t[k - pos];
      FindZeroFindsFirst(b, pos, |b|);
    }
  }

  /** Items in a row, each read from its part. */
  lemma {:induction false} ManyRead<T>(one: (Bytes, int) -> Read<T>, parts: seq<Bytes>, items: seq<T>, b: Bytes,
                                       pos: int)
    requires |parts| == |items| && Agrees(b, pos, Flatten(parts))
    requires forall i, q :: 0 <= i < |items| && Agrees(b, q, parts[i]) ==>
               Reads(one(b, q), items[i], b, q, |parts[i]|)
    ensures Reads(ReadMany(one, b, pos, |items|), items, b, pos, |Flatten(parts)|)
    decreases |items|
  {
    if items != [] {
      var first, rest := parts[0], items[1..];
      Parts(b, pos, first, Flatten(parts[1..]));
      assert Reads(one(b, pos), items[0], b, pos, |first|);
      if pos + |first| <= |b| {
        assert forall i :: 0 <= i < |rest| ==> rest[i] == items[i + 1] && parts[1..][i] == parts[i + 1];
        ManyRead(one, parts[1..], rest, b, pos + |first|);
        assert [items[0]] + rest == items;
      }
    }
  }

  // ---- message parts -----------------------------------------------------------------------

  lemma CellReads(b: Bytes, pos: int, cell: Cell)
    requires WfCell(cell) && Agrees(b, pos, EncodeCell(cell))
    ensures Reads(ReadCell(b, pos), cell, b, pos, |EncodeCell(cell)|)
  {
    match cell
    case NullCell => ByteReads(b, pos, 'n' as int);
    case UnchangedCell => ByteReads(b, pos, 'u' as int);
    case TextCell(text) => TextCellReads(b, pos, text);
  }

  lemma TextCellPieces(b: Bytes, pos: int, text: Text)
    requires FitsInt32(|text|) && Agrees(b, pos, ['t' as int] + (I32(|text|) + text))
    ensures Reads(ReadByte(b, pos), 't' as int, b, pos, 1)
    ensures pos + 1 <= |b| ==> Reads(ReadSigned(b, pos + 1, 4), |text|, b, pos + 1, 4)
    ensures pos + 5 <= |b| ==> Reads(Take(b, pos + 5, |text|), text, b, pos + 5, |text|)
  {
    Parts(b, pos, ['t' as int], I32(|text|) + text);
    ByteReads(b, pos, 't' as int);
    if pos + 1 <= |b| {
      Parts(b, pos + 1, I32(|text|), text);
      I32Reads(b, pos + 1, |text|);
      if pos + 5 <= |b| {
        TakeReads(b, pos + 5, text);
      }
    }
  }

  lemma TextCellAssembles(b: Bytes, pos: int, text: Text)
    requires ValidUtf8(text) && Reads(ReadByte(b, pos), 't' as int, b, pos, 1)
    requires pos + 1 <= |b| ==> Reads(ReadSigned(b, pos + 1, 4), |text|, b, pos + 1, 4)
    requires pos + 5 <= |b| ==> Reads(Take(b, pos + 5, |text|), text, b, pos + 5, |text|)
    ensures Reads(ReadCell(b, pos), TextCell(text), b, pos, 5 + |text|)
  {
  }

  lemma TextCellReads(b: Bytes, pos: int, text: Text)
    requires IsText(text) && FitsInt32(|text|) && Agrees(b, pos, ['t' as int] + (I32(|text|) + text))
    ensures Reads(ReadCell(b, pos), TextCell(text), b, pos, 5 + |text|)
  {
    ValidUtf8Iff(text);
    TextCellPieces(b, pos, text);
    TextCellAssembles(b, pos, text);
  }

  lemma TupleAssembles(b: Bytes, pos: int, tuple: Tuple, n: nat)
    requires Reads(ReadUnsigned(b, pos, 2), |tuple|, b, pos, 2)
    requires pos + 2 <= |b| ==> Reads(ReadMany(ReadCell, b, pos + 2, |tuple|), tuple, b, pos + 2, n)
    ensures Reads(ReadTuple(b, pos), tuple, b, pos, 2 + n)
  {
  }

  lemma CellsRead(b: Bytes, pos: int, tuple: Tuple)
    requires WfTuple(tuple) && Agrees(b, pos, EncodeMany(EncodeCell, tuple))
    ensures Reads(ReadMany(ReadCell, b, pos, |tuple|), tuple, b, pos, |EncodeMany(EncodeCell, tuple)|)
  {
    var parts := Each(EncodeCell, tuple);
    forall i, q | 0 <= i < |tuple| && Agrees(b, q, parts[i]) ensures Reads(ReadCell(b, q), tuple[i], b, q, |parts[i]|) {
      CellReads(b, q, tuple[i]);
    }
    ManyRead(ReadCell, parts, tuple, b, pos);
  }

  lemma TupleReads(b: Bytes, pos: int, tuple: Tuple)
    requires WfTuple(tuple) && Agrees(b, pos, EncodeTuple(tuple))
    ensures Reads(ReadTuple(b, pos), tuple, b, pos, |EncodeTuple(tuple)|)
  {
    var cells := EncodeMany(EncodeCell, tuple);
    Parts(b, pos, U16(|tuple|), cells);
    U16Reads(b, pos, |tuple|);
    if pos + 2 <= |b| {
      CellsRead(b, pos + 2, tuple);
    }
    TupleAssembles(b, pos, tuple, |cells|);
  }

  lemma ColumnTypeReads(b: Bytes, pos: int, flags: byte, column: Column)
    requires Fits32(column.typeOid) && FitsInt32(column.typeMod) && column.isKey == (flags % 2 == 1)
    requires Agrees(b, pos, U32(column.typeOid) + I32(column.typeMod))
    ensures Reads(ReadColumnType(b, pos, flags, column.name), column, b, pos, 8)
  {
    Parts(b, pos, U32(column.typeOid), I32(column.typeMod));
    U32Reads(b, pos, column.typeOid);
    if pos + 4 <= |b| {
      I32Reads(b, pos + 4, column.typeMod);
    }
  }

  lemma ColumnAssembles(b: Bytes, pos: int, flags: byte, column: Column, n: nat)
    requires Reads(ReadByte(b, pos), flags, b, pos, 1)
    requires pos + 1 <= |b| ==> Reads(ReadCString(b, pos + 1), column.name, b, pos + 1, n)
    requires pos + 1 + n <= |b| ==>
               Reads(ReadColumnType(b, pos + 1 + n, flags, column.name), column, b, pos + 1 + n, 8)
    ensures Reads(ReadColumn(b, pos), column, b, pos, 1 + n + 8)
  {
  }

  lemma ColumnTail(b: Bytes, pos: int, column: Column, flags: byte, name: Bytes, types: Bytes)
    requires IsCString(column.name) && Fits32(column.typeOid) && FitsInt32(column.typeMod)
    requires column.isKey == (flags % 2 == 1) && name == EncodeCString(column.name)
    requires types == U32(column.typeOid) + I32(column.typeMod)
    requires Agrees(b, pos, name + types)
    ensures Reads(ReadCString(b, pos), column.name, b, pos, |name|)
    ensures pos + |name| <= |b| ==>
              Reads(ReadColumnType(b, pos + |name|, flags, column.name), column, b, pos + |name|, 8)
  {
    Parts(b, pos, name, types);
    CStringReads(b, pos, column.name);
    if pos + |name| <= |b| {
      ColumnTypeReads(b, pos + |name|, flags, column);
    }
  }

  lemma ColumnPieces(b: Bytes, pos: int, flags: byte, column: Column, n: nat)
    requires IsCString(column.name) && Fits32(column.typeOid) && FitsInt32(column.typeMod)
    requires (column.isKey <==> flags % 2 == 1) && Agrees(b, pos, EncodeColumn(flags, column))
    requires n == |EncodeCString(column.name)|
    ensures Reads(ReadByte(b, pos), flags, b, pos, 1)
    ensures pos + 1 <= |b| ==> Reads(ReadCString(b, pos + 1), column.name, b, pos + 1, n)
    ensures pos + 1 + n <= |b| ==>
              Reads(ReadColumnType(b, pos + 1 + n, flags, column.name), column, b, pos + 1 + n, 8)
  {
    var name := EncodeCString(column.name);
    var types := U32(column.typeOid) + I32(column.typeMod);
    Parts(b, pos, [flags], name + types);
    ByteReads(b, pos, flags);
    if pos + 1 <= |b| {
      ColumnTail(b, pos + 1, column, flags, name, types);
    }
  }

  lemma ColumnLength(flags: byte, column: Column)
    ensures |EncodeColumn(flags, column)| == 1 + |EncodeCString(column.name)| + 8
  {
  }

  /** Whatever the other flags are. */
  lemma ColumnReads(b: Bytes, pos: int, flags: byte, column: Column)
    requires WfColumn(column) && (column.isKey <==> flags % 2 == 1) && Agrees(b, pos, EncodeColumn(flags, column))
    ensures Reads(ReadColumn(b, pos), column, b, pos, |EncodeColumn(flags, column)|)
  {
    var n := |EncodeCString(column.name)|;
    NamesAreCStrings(column.name);
    ColumnPieces(b, pos, flags, column, n);
    ColumnAssembles(b, pos, flags, column, n);
    ColumnLength(flags, column);
  }

  /** The columns can be sent, under these flags. */
  ghost predicate WfColumns(flags: seq<byte>, columns: seq<Column>) {
    && |flags| == |columns|
    && forall i :: 0 <= i < |columns| ==> WfColumn(columns[i]) && (columns[i].isKey <==> flags[i] % 2 == 1)
  }

  lemma ManyColumnsRead(b: Bytes, pos: int, flags: seq<byte>, columns: seq<Column>)
    requires WfColumns(flags, columns) && Agrees(b, pos, EncodeColumns(flags, columns))
    ensures Reads(ReadMany(ReadColumn, b, pos, |columns|), columns, b, pos, |EncodeColumns(flags, columns)|)
  {
    var parts := EachColumn(flags, columns);
    forall i, q | 0 <= i < |columns| && Agrees(b, q, parts[i])
      ensures Reads(ReadColumn(b, q), columns[i], b, q, |parts[i]|)
    {
      ColumnReads(b, q, flags[i], columns[i]);
    }
    ManyRead(ReadColumn, parts, columns, b, pos);
  }

  // ---- the nine messages ----------------------------------------------------------------------

  ghost predicate Encodes(b: Bytes, m: Message, flags: seq<byte>) {
    b != [] && WfMessage(m) && FlagsOf(m, flags) && b[0] == Kind(m) && Agrees(b, 1, EncodeBody(m, flags))
  }

  lemma BeginDecodes(b: Bytes, m: Message, flags: seq<byte>)
    requires m.Begin? && Encodes(b, m, flags)
    ensures Reads(DecodeBegin(b), m, b, 0, |Encode(m, flags)|)
  {
    var ts, xid := I64(m.commitTs), U32(m.xid);
    Parts(b, 1, U64(m.finalLsn), ts + xid);
    U64Reads(b, 1, m.finalLsn);
    if 9 <= |b| {
      Parts(b, 9, ts, xid);
      TimestampReads(b, 9, m.commitTs);
      if 17 <= |b| {
        U32Reads(b, 17, m.xid);
      }
    }
  }

  lemma CommitPieces(b: Bytes, m: Message, flags: seq<byte>)
    requires m.Commit? && Encodes(b, m, flags)
    ensures Reads(ReadByte(b, 1), m.flags, b, 1, 1)
    ensures 2 <= |b| ==> Reads(ReadUnsigned(b, 2, 8), m.commitLsn, b, 2, 8)
    ensures 10 <= |b| ==> Reads(ReadUnsigned(b, 10, 8), m.endLsn, b, 10, 8)
    ensures 18 <= |b| ==> Reads(ReadTimestamp(b, 18), m.commitTs, b, 18, 8)
    ensures |Encode(m, flags)| == 26
  {
    var commitLsn, endLsn, ts := U64(m.commitLsn), U64(m.endLsn), I64(m.commitTs);
    Parts(b, 1, U8(m.flags), commitLsn + (endLsn + ts));
    ByteReads(b, 1, m.flags % 256);
    if 2 <= |b| {
      Parts(b, 2, commitLsn, endLsn + ts);
      U64Reads(b, 2, m.commitLsn);
      if 10 <= |b| {
        Parts(b, 10, endLsn, ts);
        U64Reads(b, 10, m.endLsn);
        if 18 <= |b| {
          TimestampReads(b, 18, m.commitTs);
        }
      }
    }
  }

  lemma CommitAssembles(b: Bytes, m: Message)
    requires m.Commit? && Reads(ReadByte(b, 1), m.flags, b, 1, 1)
    requires 2 <= |b| ==> Reads(ReadUnsigned(b, 2, 8), m.commitLsn, b, 2, 8)
    requires 10 <= |b| ==> Reads(ReadUnsigned(b, 10, 8), m.endLsn, b, 10, 8)
    requires 18 <= |b| ==> Reads(ReadTimestamp(b, 18), m.commitTs, b, 18, 8)
    ensures Reads(DecodeCommit(b), m, b, 0, 26)
  {
  }

  lemma CommitDecodes(b: Bytes, m: Message, flags: seq<byte>)
    requires m.Commit? && Encodes(b, m, flags)
    ensures Reads(DecodeCommit(b), m, b, 0, |Encode(m, flags)|)
  {
    CommitPieces(b, m, flags);
    CommitAssembles(b, m);
  }

  lemma OriginDecodes(b: Bytes, m: Message, flags: seq<byte>)
    requires m.Origin? && Encodes(b, m, flags)
    ensures Reads(DecodeOrigin(b), m, b, 0, |Encode(m, flags)|)
  {
    NamesAreCStrings(m.name);
    Parts(b, 1, U64(m.commitLsn), EncodeCString(m.name));
    U64Reads(b, 1, m.commitLsn);
    if 9 <= |b| {
      CStringReads(b, 9, m.name);
    }
  }

  lemma TypeDecodes(b: Bytes, m: Message, flags: seq<byte>)
    requires m.TypeInfo? && Encodes(b, m, flags)
    ensures Reads(DecodeType(b), m, b, 0, |Encode(m, flags)|)
  {
    Parts(b, 1, U32(m.typeOid), EncodeCString(m.schema) + EncodeCString(m.name));
    U32Reads(b, 1, m.typeOid);
    if 5 <= |b| {
      NothingMore(EncodeCString(m.name));
      NamesAreCStrings(m.schema);
      NamesAreCStrings(m.name);
      NamesRead(b, 5, m.schema, m.name, []);
    }
  }

  /** Two names in a row, then something else. */
  lemma NamesRead(b: Bytes, pos: int, schema: Text, name: Text, rest: Bytes)
    requires IsCString(schema) && IsCString(name)
    requires Agrees(b, pos, EncodeCString(schema) + (EncodeCString(name) + rest))
    ensures Reads(ReadCString(b, pos), schema, b, pos, |EncodeCString(schema)|)
    ensures var p := pos + |EncodeCString(schema)|;
            p <= |b| ==>
              && Reads(ReadCString(b, p), name, b, p, |EncodeCString(name)|)
              && (p + |EncodeCString(name)| <= |b| ==> Agrees(b, p + |EncodeCString(name)|, rest))
  {
    var p := pos + |EncodeCString(schema)|;
    Parts(b, pos, EncodeCString(schema), EncodeCString(name) + rest);
    CStringReads(b, pos, schema);
    if p <= |b| {
      Parts(b, p, EncodeCString(name), rest);
      CStringReads(b, p, name);
    }
  }

  lemma ColumnsRead(b: Bytes, pos: int, flags: seq<byte>, columns: seq<Column>)
    requires WfColumns(flags, columns) && Fits16(|columns|)
    requires Agrees(b, pos, U16(|columns|) + EncodeColumns(flags, columns))
    ensures Reads(ReadUnsigned(b, pos, 2), |columns|, b, pos, 2)
    ensures pos + 2 <= |b| ==>
              Reads(ReadMany(ReadColumn, b, pos + 2, |columns|), columns, b, pos + 2, |EncodeColumns(flags, columns)|)
  {
    Parts(b, pos, U16(|columns|), EncodeColumns(flags, columns));
    U16Reads(b, pos, |columns|);
    if pos + 2 <= |b| {
      ManyColumnsRead(b, pos + 2, flags, columns);
    }
  }

  lemma RelationTailPieces(b: Bytes, pos: int, rel: Relation, flags: seq<byte>)
    requires WfRelation(rel) && FlagsOf(RelationMsg(rel), flags)
    requires Agrees(b, pos, RelationTail(rel, flags))
    ensures Reads(ReadByte(b, pos), rel.replicaIdentity, b, pos, 1)
    ensures pos + 1 <= |b| ==> Reads(ReadUnsigned(b, pos + 1, 2), |rel.columns|, b, pos + 1, 2)
    ensures pos + 3 <= |b| ==>
              Reads(ReadMany(ReadColumn, b, pos + 3, |rel.columns|), rel.columns,
                    b, pos + 3, |EncodeColumns(flags, rel.columns)|)
  {
    Parts(b, pos, [rel.replicaIdentity], U16(|rel.columns|) + EncodeColumns(flags, rel.columns));
    ByteReads(b, pos, rel.replicaIdentity);
    if pos + 1 <= |b| {
      ColumnsRead(b, pos + 1, flags, rel.columns);
    }
  }

  lemma RelationTailDecodes(b: Bytes, pos: int, rel: Relation, flags: seq<byte>)
    requires WfRelation(rel) && FlagsOf(RelationMsg(rel), flags)
    requires Agrees(b, pos, RelationTail(rel, flags))
    ensures Reads(DecodeColumns(b, pos, rel.relId, rel.schema, rel.name), RelationMsg(rel),
                  b, pos, 3 + |EncodeColumns(flags, rel.columns)|)
  {
    RelationTailPieces(b, pos, rel, flags);
  }

  lemma RelationHeadReads(b: Bytes, rel: Relation, flags: seq<byte>)
    requires Encodes(b, RelationMsg(rel), flags)
    ensures Reads(ReadUnsigned(b, 1, 4), rel.relId, b, 1, 4)
    ensures 5 <= |b| ==>
              Agrees(b, 5, EncodeCString(rel.schema) + (EncodeCString(rel.name) + RelationTail(rel, flags)))
  {
    Parts(b, 1, U32(rel.relId), EncodeCString(rel.schema) + (EncodeCString(rel.name) + RelationTail(rel, flags)));
    U32Reads(b, 1, rel.relId);
  }

  lemma RelationBodyReads(b: Bytes, rel: Relation, flags: seq<byte>, p: int, q: int)
    requires WfRelation(rel) && FlagsOf(RelationMsg(rel), flags)
    requires p == 5 + |EncodeCString(rel.schema)| && q == p + |EncodeCString(rel.name)|
    requires Agrees(b, 5, EncodeCString(rel.schema) + (EncodeCString(rel.name) + RelationTail(rel, flags)))
    ensures Reads(ReadCString(b, 5), rel.schema, b, 5, p - 5)
    ensures p <= |b| ==> Reads(ReadCString(b, p), rel.name, b, p, q - p)
    ensures q <= |b| ==>
              Reads(DecodeColumns(b, q, rel.relId, rel.schema, rel.name), RelationMsg(rel),
                    b, q, 3 + |EncodeColumns(flags, rel.columns)|)
  {
    NamesAreCStrings(rel.schema);
    NamesAreCStrings(rel.name);
    NamesRead(b, 5, rel.schema, rel.name, RelationTail(rel, flags));
    if q <= |b| {
      RelationTailDecodes(b, q, rel, flags);
    }
  }

  /** Reads in a row make one read; a cut buffer fails at the piece that is cut. */
  lemma RelationAssembles(b: Bytes, rel: Relation, p: int, q: int, end: int)
    requires 5 <= p <= q <= end
    requires Reads(ReadUnsigned(b, 1, 4), rel.relId, b, 1, 4)
    requires 5 <= |b| ==> Reads(ReadCString(b, 5), rel.schema, b, 5, p - 5)
    requires p <= |b| ==> Reads(ReadCString(b, p), rel.name, b, p, q - p)
    requires q <= |b| ==> Reads(DecodeColumns(b, q, rel.relId, rel.schema, rel.name), RelationMsg(rel), b, q, end - q)
    ensures Reads(DecodeRelation(b), RelationMsg(rel), b, 0, end)
  {
  }

  lemma RelationDecodes(b: Bytes, m: Message, flags: seq<byte>)
    requires m.RelationMsg? && Encodes(b, m, flags)
    ensures Reads(DecodeRelation(b), m, b, 0, |Encode(m, flags)|)
  {
    var p := 5 + |EncodeCString(m.rel.schema)|;
    var q := p + |EncodeCString(m.rel.name)|;
    RelationLength(m.rel, flags);
    RelationHeadReads(b, m.rel, flags);
    if 5 <= |b| {
      RelationBodyReads(b, m.rel, flags, p, q);
    }
    RelationAssembles(b, m.rel, p, q, |Encode(m, flags)|);
  }

  lemma RelationLength(rel: Relation, flags: seq<byte>)
    requires FlagsOf(RelationMsg(rel), flags)
    ensures |Encode(RelationMsg(rel), flags)| ==
            5 + |EncodeCString(rel.schema)| + |EncodeCString(rel.name)| + 3 + |EncodeColumns(flags, rel.columns)|
  {
  }

  lemma InsertDecodes(b: Bytes, m: Message, flags: seq<byte>)
    requires m.InsertMsg? && Encodes(b, m, flags)
    ensures Reads(DecodeInsert(b), m, b, 0, |Encode(m, flags)|)
  {
    Parts(b, 1, U32(m.relId), ['N' as int] + EncodeTuple(m.tuple));
    U32Reads(b, 1, m.relId);
    if 5 <= |b| {
      NothingMore(EncodeTuple(m.tuple));
      TaggedTupleReads(b, 5, 'N' as int, m.tuple, []);
    }
  }

  /** A submessage: its tag, its tuple, then something else. */
  lemma TaggedTupleReads(b: Bytes, pos: int, tag: byte, tuple: Tuple, rest: Bytes)
    requires WfTuple(tuple)
    requires Agrees(b, pos, [tag] + (EncodeTuple(tuple) + rest))
    ensures Reads(ReadByte(b, pos), tag, b, pos, 1)
    ensures pos + 1 <= |b| ==>
              && Reads(ReadTuple(b, pos + 1), tuple, b, pos + 1, |EncodeTuple(tuple)|)
              && (pos + 1 + |EncodeTuple(tuple)| <= |b| ==> Agrees(b, pos + 1 + |EncodeTuple(tuple)|, rest))
  {
    Parts(b, pos, [tag], EncodeTuple(tuple) + rest);
    ByteReads(b, pos, tag);
    if pos + 1 <= |b| {
      Parts(b, pos + 1, EncodeTuple(tuple), rest);
      TupleReads(b, pos + 1, tuple);
    }
  }

  lemma NewDecodes(b: Bytes, pos: int, relId: nat, before: Option<Tuple>, key: Option<Tuple>, tuple: Tuple)
    requires WfTuple(tuple) && Agrees(b, pos, ['N' as int] + EncodeTuple(tuple))
    ensures Reads(ReadByte(b, pos), 'N' as int, b, pos, 1)
    ensures pos + 1 <= |b| ==>
              Reads(DecodeNew(b, pos + 1, relId, before, key, 'N' as int), UpdateMsg(relId, before, key, tuple),
                    b, pos + 1, |EncodeTuple(tuple)|)
  {
    NothingMore(EncodeTuple(tuple));
    TaggedTupleReads(b, pos, 'N' as int, tuple, []);
  }

  lemma PlainUpdateDecodes(b: Bytes, m: Message, flags: seq<byte>)
    requires m.UpdateMsg? && m.key.None? && m.before.None? && Encodes(b, m, flags)
    ensures Reads(DecodeUpdate(b), m, b, 0, |Encode(m, flags)|)
  {
    Parts(b, 1, U32(m.relId), ['N' as int] + EncodeTuple(m.tuple));
    U32Reads(b, 1, m.relId);
    if 5 <= |b| {
      NewDecodes(b, 5, m.relId, None, None, m.tuple);
    }
  }

  /** An Update with an old or key tuple, read piece by piece. */
  lemma UpdatePieces(b: Bytes, m: Message, flags: seq<byte>, tag: byte, first: Tuple)
    requires m.UpdateMsg? && Encodes(b, m, flags)
    requires (m.key == Some(first) && tag == 'K' as int) || (m.before == Some(first) && tag == 'O' as int)
    ensures Reads(ReadUnsigned(b, 1, 4), m.relId, b, 1, 4)
    ensures 5 <= |b| ==> Reads(ReadByte(b, 5), tag, b, 5, 1)
    ensures 6 <= |b| ==> Reads(ReadTuple(b, 6), first, b, 6, |EncodeTuple(first)|)
    ensures var p := 6 + |EncodeTuple(first)|;
            && (p <= |b| ==> Reads(ReadByte(b, p), 'N' as int, b, p, 1))
            && (p + 1 <= |b| ==>
                  Reads(DecodeNew(b, p + 1, m.relId, m.before, m.key, 'N' as int), m, b, p + 1, |EncodeTuple(m.tuple)|))
            && |Encode(m, flags)| == p + 1 + |EncodeTuple(m.tuple)|
  {
    var last := ['N' as int] + EncodeTuple(m.tuple);
    Parts(b, 1, U32(m.relId), [tag] + (EncodeTuple(first) + last));
    U32Reads(b, 1, m.relId);
    if 5 <= |b| {
      TaggedTupleReads(b, 5, tag, first, last);
      var p := 6 + |EncodeTuple(first)|;
      if p <= |b| {
        NewDecodes(b, p, m.relId, m.before, m.key, m.tuple);
      }
    }
  }

  lemma UpdateAssembles(b: Bytes, m: Message, tag: byte, first: Tuple, p: int, end: int)
    requires m.UpdateMsg? && 6 <= p && p + 1 <= end
    requires (tag == 'K' as int && m.key == Some(first) && m.before == None)
             || (tag == 'O' as int && m.before == Some(first) && m.key == None)
    requires Reads(ReadUnsigned(b, 1, 4), m.relId, b, 1, 4)
    requires 5 <= |b| ==> Reads(ReadByte(b, 5), tag, b, 5, 1)
    requires 6 <= |b| ==> Reads(ReadTuple(b, 6), first, b, 6, p - 6)
    requires p <= |b| ==> Reads(ReadByte(b, p), 'N' as int, b, p, 1)
    requires p + 1 <= |b| ==>
               Reads(DecodeNew(b, p + 1, m.relId, m.before, m.key, 'N' as int), m, b, p + 1, end - p - 1)
    ensures Reads(DecodeUpdate(b), m, b, 0, end)
  {
  }

  lemma UpdateDecodes(b: Bytes, m: Message, flags: seq<byte>)
    requires m.UpdateMsg? && Encodes(b, m, flags)
    ensures Reads(DecodeUpdate(b), m, b, 0, |Encode(m, flags)|)
  {
    if m.key.None? && m.before.None? {
      PlainUpdateDecodes(b, m, flags);
    } else {
      var tag := if m.key.Some? then 'K' as int else 'O' as int;
      var first := if m.key.Some? then m.key.value else m.before.value;
      UpdatePieces(b, m, flags, tag, first);
      UpdateAssembles(b, m, tag, first, 6 + |EncodeTuple(first)|, |Encode(m, flags)|);
    }
  }

  lemma DeletePieces(b: Bytes, m: Message, flags: seq<byte>, tag: byte, first: Tuple)
    requires m.DeleteMsg? && Encodes(b, m, flags)
    requires (m.key == Some(first) && tag == 'K' as int) || (m.before == Some(first) && tag == 'O' as int)
    ensures Reads(ReadUnsigned(b, 1, 4), m.relId, b, 1, 4)
    ensures 5 <= |b| ==> Reads(ReadByte(b, 5), tag, b, 5, 1)
    ensures 6 <= |b| ==> Reads(ReadTuple(b, 6), first, b, 6, |EncodeTuple(first)|)
    ensures |Encode(m, flags)| == 6 + |EncodeTuple(first)|
  {
    Parts(b, 1, U32(m.relId), [tag] + (EncodeTuple(first) + []));
    U32Reads(b, 1, m.relId);
    if 5 <= |b| {
      TaggedTupleReads(b, 5, tag, first, []);
    }
  }

  lemma DeleteAssembles(b: Bytes, m: Message, tag: byte, first: Tuple, n: nat)
    requires m.DeleteMsg?
    requires (tag == 'K' as int && m.key == Some(first) && m.before == None)
             || (tag == 'O' as int && m.before == Some(first) && m.key == None)
    requires Reads(ReadUnsigned(b, 1, 4), m.relId, b, 1, 4)
    requires 5 <= |b| ==> Reads(ReadByte(b, 5), tag, b, 5, 1)
    requires 6 <= |b| ==> Reads(ReadTuple(b, 6), first, b, 6, n)
    ensures Reads(DecodeDelete(b), m, b, 0, 6 + n)
  {
  }

  lemma DeleteDecodes(b: Bytes, m: Message, flags: seq<byte>)
    requires m.DeleteMsg? && Encodes(b, m, flags)
    ensures Reads(DecodeDelete(b), m, b, 0, |Encode(m, flags)|)
  {
    var tag := if m.key.Some? then 'K' as int else 'O' as int;
    var first := if m.key.Some? then m.key.value else m.before.value;
    DeletePieces(b, m, flags, tag, first);
    DeleteAssembles(b, m, tag, first, |EncodeTuple(first)|);
  }

  lemma RelIdsRead(b: Bytes, pos: int, relIds: seq<nat>)
    requires forall i :: 0 <= i < |relIds| ==> Fits32(relIds[i])
    requires Agrees(b, pos, EncodeMany(U32, relIds))
    ensures Reads(ReadMany(ReadRelId, b, pos, |relIds|), relIds, b, pos, |EncodeMany(U32, relIds)|)
  {
    var parts := Each(U32, relIds);
    forall i, q | 0 <= i < |relIds| && Agrees(b, q, parts[i])
      ensures Reads(ReadRelId(b, q), relIds[i], b, q, |parts[i]|)
    {
      U32Reads(b, q, relIds[i]);
    }
    ManyRead(ReadRelId, parts, relIds, b, pos);
  }

  lemma TruncatePieces(b: Bytes, m: Message, flags: seq<byte>)
    requires m.TruncateMsg? && Encodes(b, m, flags)
    ensures Reads(ReadUnsigned(b, 1, 4), |m.relIds|, b, 1, 4)
    ensures 5 <= |b| ==> Reads(ReadByte(b, 5), m.options, b, 5, 1)
    ensures 6 <= |b| ==> Agrees(b, 6, EncodeMany(U32, m.relIds))
    ensures |Encode(m, flags)| == 6 + |EncodeMany(U32, m.relIds)|
  {
    var ids := EncodeMany(U32, m.relIds);
    Parts(b, 1, U32(|m.relIds|), U8(m.options) + ids);
    U32Reads(b, 1, |m.relIds|);
    if 5 <= |b| {
      Parts(b, 5, U8(m.options), ids);
      ByteReads(b, 5, m.options % 256);
    }
  }

  lemma TruncateAssembles(b: Bytes, m: Message, n: nat)
    requires m.TruncateMsg? && Reads(ReadUnsigned(b, 1, 4), |m.relIds|, b, 1, 4)
    requires 5 <= |b| ==> Reads(ReadByte(b, 5), m.options, b, 5, 1)
    requires 6 <= |b| ==> Reads(ReadMany(ReadRelId, b, 6, |m.relIds|), m.relIds, b, 6, n)
    ensures Reads(DecodeTruncate(b), m, b, 0, 6 + n)
  {
  }

  lemma TruncateDecodes(b: Bytes, m: Message, flags: seq<byte>)
    requires m.TruncateMsg? && Encodes(b, m, flags)
    ensures Reads(DecodeTruncate(b), m, b, 0, |Encode(m, flags)|)
  {
    TruncatePieces(b, m, flags);
    if 6 <= |b| {
      RelIdsRead(b, 6, m.relIds);
    }
    TruncateAssembles(b, m, |EncodeMany(U32, m.relIds)|);
  }

  lemma MessageDecodes(b: Bytes, m: Message, flags: seq<byte>)
    requires Encodes(b, m, flags)
    ensures Reads(DecodeAt(b), m, b, 0, |Encode(m, flags)|)
  {
    match m
    case Begin(_, _, _) => BeginDecodes(b, m, flags);
    case Commit(_, _, _, _) => CommitDecodes(b, m, flags);
    case RelationMsg(_) => RelationDecodes(b, m, flags);
    case InsertMsg(_, _) => InsertDecodes(b, m, flags);
    case UpdateMsg(_, _, _, _) => UpdateDecodes(b, m, flags);
    case DeleteMsg(_, _, _) => DeleteDecodes(b, m, flags);
    case TruncateMsg(_, _) => TruncateDecodes(b, m, flags);
    case Origin(_, _) => OriginDecodes(b, m, flags);
    case TypeInfo(_, _, _) => TypeDecodes(b, m, flags);
  }

  /** decode_message(encode(m) + tail) == m, for every message that can be sent, any further flags of its
      columns and every tail. */
  lemma DecodeInvertsEncode(m: Message, flags: seq<byte>, tail: Bytes)
    requires WfMessage(m) && FlagsOf(m, flags)
    ensures Decode(Encode(m, flags) + tail) == Ok(m)
  {
    MessageDecodes(Encode(m, flags) + tail, m, flags);
  }

  /** Every strict prefix of an encoded message is refused with ProtocolError. */
  lemma StrictPrefixIsRefused(m: Message, flags: seq<byte>, cut: nat)
    requires WfMessage(m) && FlagsOf(m, flags) && cut < |Encode(m, flags)|
    ensures Decode(Encode(m, flags)[..cut]) == Err(ProtocolError)
  {
    if cut > 0 {
      MessageDecodes(Encode(m, flags)[..cut], m, flags);
    }
  }

  /** Two messages that can be sent with the same bytes are the same message. */
  lemma EncodingIsInjective(m: Message, n: Message, flags: seq<byte>, others: seq<byte>)
    requires WfMessage(m) && WfMessage(n) && FlagsOf(m, flags) && FlagsOf(n, others)
    requires Encode(m, flags) == Encode(n, others)
    ensures m == n
  {
    DecodeInvertsEncode(m, flags, []);
    DecodeInvertsEncode(n, others, []);
  }
}
