/**
  What the decoder accepts: from a successful read back to the bytes that were read.  But for text of
  negative length, a decoded buffer begins with the wire form of the message, so nothing else is accepted.
*/
module Accepted {
  import opened Prelude
  import opened Protocol
  import opened Wire
  import opened RoundTrip

  /** The buffer holds these bytes from one cursor to the other. */
  ghost predicate At(b: Bytes, pos: int, bytes: Bytes, next: int) {
    0 <= pos && next == pos + |bytes| && next <= |b| && b[pos..next] == bytes
  }

  lemma Join(b: Bytes, p: int, x: Bytes, q: int, y: Bytes, r: int)
    requires At(b, p, x, q) && At(b, q, y, r)
    ensures At(b, p, x + y, r)
  {
  }

  // ---- integers ---------------------------------------------------------------------------

  lemma TakeBack(b: Bytes, pos: int, n: nat)
    requires 0 <= pos && Take(b, pos, n).Ok?
    ensures var (chunk, next) := Take(b, pos, n).value; |chunk| == n && At(b, pos, chunk, next)
  {
  }

  lemma ByteBack(b: Bytes, pos: int)
    requires 0 <= pos && ReadByte(b, pos).Ok?
    ensures var (v, next) := ReadByte(b, pos).value; At(b, pos, [v], next)
  {
    TakeBack(b, pos, 1);
  }

  lemma U16Bytes(bytes: Bytes)
    requires |bytes| == 2
    ensures Fits16(Unsigned(bytes)) && U16(Unsigned(bytes)) == bytes
  {
    UnsignedTwo(bytes[0], bytes[1]);
    assert bytes == [bytes[0], bytes[1]];
  }

  lemma U32Bytes(bytes: Bytes)
    requires |bytes| == 4
    ensures Fits32(Unsigned(bytes)) && U32(Unsigned(bytes)) == bytes
  {
    var a, b, c, d := bytes[0], bytes[1], bytes[2], bytes[3];
    UnsignedTwo(a, b);
    UnsignedTwoMore([a, b], c, d);
    assert bytes == [a, b] + [c, d];
    FromFour(a, b, c, d, Unsigned(bytes));
  }

  lemma FromFour(a: int, b: int, c: int, d: int, n: int)
    requires 0 <= a < 0x100 && 0 <= b < 0x100 && 0 <= c < 0x100 && 0 <= d < 0x100
    requires n == ((a * 0x100 + b) * 0x100 + c) * 0x100 + d
    ensures 0 <= n < 0x1_0000_0000 && n % 0x100 == d && n / 0x100 % 0x100 == c
    ensures n / 0x1_0000 % 0x100 == b && n / 0x100_0000 % 0x100 == a
  {
    assert n / 0x100 == (a * 0x100 + b) * 0x100 + c;
    assert n / 0x1_0000 == a * 0x100 + b && n / 0x100_0000 == a;
  }

  lemma U64Bytes(bytes: Bytes)
    requires |bytes| == 8
    ensures Fits64(Unsigned(bytes)) && U64(Unsigned(bytes)) == bytes
  {
    var high, low := bytes[..4], bytes[4..];
    assert bytes == high + low;
    U32Bytes(high);
    U32Bytes(low);
    UnsignedFourMore(high, low);
    var n := Unsigned(bytes);
    assert n / 0x1_0000_0000 == Unsigned(high) && n % 0x1_0000_0000 == Unsigned(low);
  }

  lemma U16Back(b: Bytes, pos: int)
    requires 0 <= pos && ReadUnsigned(b, pos, 2).Ok?
    ensures var (n, next) := ReadUnsigned(b, pos, 2).value; Fits16(n) && At(b, pos, U16(n), next)
  {
    TakeBack(b, pos, 2);
    U16Bytes(Take(b, pos, 2).value.0);
  }

  lemma U32Back(b: Bytes, pos: int)
    requires 0 <= pos && ReadUnsigned(b, pos, 4).Ok?
    ensures var (n, next) := ReadUnsigned(b, pos, 4).value; Fits32(n) && At(b, pos, U32(n), next)
  {
    TakeBack(b, pos, 4);
    U32Bytes(Take(b, pos, 4).value.0);
  }

  lemma U64Back(b: Bytes, pos: int)
    requires 0 <= pos && ReadUnsigned(b, pos, 8).Ok?
    ensures var (n, next) := ReadUnsigned(b, pos, 8).value; Fits64(n) && At(b, pos, U64(n), next)
  {
    TakeBack(b, pos, 8);
    U64Bytes(Take(b, pos, 8).value.0);
  }

  /** Two's complement undone: the same number, or less by a power that the remainder does not see. */
  lemma Wraps(n: nat, m: int, power: nat)
    requires n < power && (m == n || m == n - power)
    ensures m % power == n
  {
  }

  lemma I32Bytes(bytes: Bytes)
    requires |bytes| == 4
    ensures FitsInt32(Signed(bytes)) && I32(Signed(bytes)) == bytes
  {
    U32Bytes(bytes);
    Powers();
    Wraps(Unsigned(bytes), Signed(bytes), 0x1_0000_0000);
  }

  lemma I64Bytes(bytes: Bytes)
    requires |bytes| == 8
    ensures I64(Signed(bytes)) == bytes
  {
    U64Bytes(bytes);
    Powers();
    Wraps(Unsigned(bytes), Signed(bytes), 0x1_0000_0000_0000_0000);
  }

  lemma I32Back(b: Bytes, pos: int)
    requires 0 <= pos && ReadSigned(b, pos, 4).Ok?
    ensures var (n, next) := ReadSigned(b, pos, 4).value; FitsInt32(n) && At(b, pos, I32(n), next)
  {
    TakeBack(b, pos, 4);
    I32Bytes(Take(b, pos, 4).value.0);
  }

  lemma TimestampBack(b: Bytes, pos: int)
    requires 0 <= pos && ReadTimestamp(b, pos).Ok?
    ensures var (micros, next) := ReadTimestamp(b, pos).value; WfTimestamp(micros) && At(b, pos, I64(micros), next)
  {
    TakeBack(b, pos, 8);
    I64Bytes(Take(b, pos, 8).value.0);
    TimesAre(ReadTimestamp(b, pos).value.0);
  }

  // ---- text -----------------------------------------------------------------------------------

  lemma {:induction false} FoundIsFirst(b: Bytes, from: nat)
    requires from <= |b| && FindZero(b, from).Some?
    ensures var i := FindZero(b, from).value; from <= i < |b| && b[i] == 0 && 0 !in b[from..i]
    decreases |b| - from
  {
    if b[from] != 0 {
      FoundIsFirst(b, from + 1);
      var i := FindZero(b, from).value;
      assert b[from..i] == [b[from]] + b[from + 1..i];
    }
  }

  lemma NameBack(b: Bytes, pos: int)
    requires 0 <= pos && ReadCString(b, pos).Ok?
    ensures var (t, next) := ReadCString(b, pos).value; IsCString(t) && At(b, pos, EncodeCString(t), next)
  {
    FoundIsFirst(b, Clamp(pos, |b|));
    var (t, next) := ReadCString(b, pos).value;
    assert b[pos..next] == b[pos..next - 1] + [b[next - 1]];
  }

  lemma CStringBack(b: Bytes, pos: int)
    requires 0 <= pos && ReadCString(b, pos).Ok?
    ensures var (t, next) := ReadCString(b, pos).value; WfName(t) && At(b, pos, EncodeCString(t), next)
  {
    NameBack(b, pos);
    ValidUtf8Iff(ReadCString(b, pos).value.0);
  }

  /** A text cell with a negative length begins here. */
  predicate NegativeAt(b: Bytes, i: int) {
    0 <= i && i + 5 <= |b| && b[i] == 't' as int && b[i + 1] >= 0x80
  }

  ghost predicate NoNegative(b: Bytes) { forall i :: !NegativeAt(b, i) }

  lemma HighBit(n: int)
    requires FitsInt32(n)
    ensures n < 0 <==> I32(n)[0] >= 0x80
  {
  }

  lemma TextCellBack(b: Bytes, pos: int)
    requires NoNegative(b) && 0 <= pos && ReadCell(b, pos).Ok? && ReadByte(b, pos).value.0 == 't' as int
    ensures var (cell, next) := ReadCell(b, pos).value; WfCell(cell) && At(b, pos, EncodeCell(cell), next)
  {
    ByteBack(b, pos);
    var p := pos + 1;
    I32Back(b, p);
    var (length, start) := ReadSigned(b, p, 4).value;
    HighBit(length);
    assert !NegativeAt(b, pos);
    assert b[p] == b[p..start][0];
    TakeBack(b, start, length);
    var (cell, next) := ReadCell(b, pos).value;
    ValidUtf8Iff(cell.text);
    Join(b, p, I32(length), start, cell.text, next);
    Join(b, pos, ['t' as int], p, I32(length) + cell.text, next);
  }

  lemma CellBack(b: Bytes, pos: int)
    requires NoNegative(b) && 0 <= pos && ReadCell(b, pos).Ok?
    ensures var (cell, next) := ReadCell(b, pos).value; WfCell(cell) && At(b, pos, EncodeCell(cell), next)
  {
    ByteBack(b, pos);
    if ReadByte(b, pos).value.0 == 't' as int {
      TextCellBack(b, pos);
    }
  }

  // ---- items in a row ------------------------------------------------------------------------

  /** The read item and the bytes it was read from are as they should be. */
  ghost predicate GoodPart<T>(good: (T, Bytes) -> bool, b: Bytes, pos: int, read: (T, int)) {
    0 <= pos <= read.1 <= |b| && good(read.0, b[pos..read.1])
  }

  /** Each item was read from its own part. */
  ghost predicate GoodParts<T>(good: (T, Bytes) -> bool, items: seq<T>, parts: seq<Bytes>) {
    |parts| == |items| && forall i :: 0 <= i < |items| ==> good(items[i], parts[i])
  }

  lemma {:induction false} ManyBack<T>(one: (Bytes, int) -> Read<T>, good: (T, Bytes) -> bool, b: Bytes, pos: int,
                                       count: nat) returns (parts: seq<Bytes>)
    requires 0 <= pos <= |b| && ReadMany(one, b, pos, count).Ok?
    requires forall q :: 0 <= q && one(b, q).Ok? ==> GoodPart(good, b, q, one(b, q).value)
    ensures var (items, next) := ReadMany(one, b, pos, count).value;
            |items| == count && GoodParts(good, items, parts) && At(b, pos, Flatten(parts), next)
    decreases count
  {
    if count == 0 {
      parts := [];
    } else {
      var (item, next) := one(b, pos).value;
      assert GoodPart(good, b, pos, one(b, pos).value);
      var rest := ManyBack(one, good, b, next, count - 1);
      var (items, end) := ReadMany(one, b, next, count - 1).value;
      parts := [b[pos..next]] + rest;
      assert parts[1..] == rest;
      Join(b, pos, b[pos..next], next, Flatten(rest), end);
    }
  }

  lemma TupleBack(b: Bytes, pos: int)
    requires NoNegative(b) && 0 <= pos && ReadTuple(b, pos).Ok?
    ensures var (tuple, next) := ReadTuple(b, pos).value; WfTuple(tuple) && At(b, pos, EncodeTuple(tuple), next)
  {
    U16Back(b, pos);
    var (count, start) := ReadUnsigned(b, pos, 2).value;
    var good := (cell: Cell, part: Bytes) => WfCell(cell) && part == EncodeCell(cell);
    forall q | 0 <= q && ReadCell(b, q).Ok? ensures GoodPart(good, b, q, ReadCell(b, q).value) {
      CellBack(b, q);
    }
    var parts := ManyBack(ReadCell, good, b, start, count);
    var (tuple, next) := ReadTuple(b, pos).value;
    assert parts == Each(EncodeCell, tuple);
    Join(b, pos, U16(count), start, Flatten(parts), next);
  }

  /** The flags that a column was read with, whatever they are. */
  lemma ColumnBack(b: Bytes, pos: int)
    requires 0 <= pos && ReadColumn(b, pos).Ok?
    ensures var (column, next) := ReadColumn(b, pos).value;
            && WfColumn(column) && pos < |b| && (column.isKey <==> b[pos] % 2 == 1)
            && At(b, pos, EncodeColumn(b[pos], column), next)
  {
    ByteBack(b, pos);
    var (flags, p) := ReadByte(b, pos).value;
    assert b[pos] == b[pos..p][0];
    CStringBack(b, p);
    var (name, q) := ReadCString(b, p).value;
    U32Back(b, q);
    var (oid, r) := ReadUnsigned(b, q, 4).value;
    I32Back(b, r);
    var (typeMod, s) := ReadSigned(b, r, 4).value;
    Join(b, q, U32(oid), r, I32(typeMod), s);
    Join(b, p, EncodeCString(name), q, U32(oid) + I32(typeMod), s);
    Join(b, pos, [flags], p, EncodeCString(name) + (U32(oid) + I32(typeMod)), s);
  }

  ghost predicate ColumnPart(column: Column, part: Bytes) {
    WfColumn(column) && part != [] && (column.isKey <==> part[0] % 2 == 1) && part == EncodeColumn(part[0], column)
  }

  lemma ColumnsBack(b: Bytes, pos: int, count: nat) returns (flags: seq<byte>)
    requires 0 <= pos <= |b| && ReadMany(ReadColumn, b, pos, count).Ok?
    ensures var (columns, next) := ReadMany(ReadColumn, b, pos, count).value;
            |columns| == count && WfColumns(flags, columns) && At(b, pos, EncodeColumns(flags, columns), next)
  {
    forall q | 0 <= q && ReadColumn(b, q).Ok? ensures GoodPart(ColumnPart, b, q, ReadColumn(b, q).value) {
      ColumnBack(b, q);
    }
    var parts := ManyBack(ReadColumn, ColumnPart, b, pos, count);
    var (columns, next) := ReadMany(ReadColumn, b, pos, count).value;
    assert forall i :: 0 <= i < |parts| ==> ColumnPart(columns[i], parts[i]);
    flags := seq(|parts|, i requires 0 <= i < |parts| => parts[i][0]);
    assert parts == EachColumn(flags, columns);
  }

  // ---- messages ---------------------------------------------------------------------------------

  /** The buffer begins with the wire form of the message, under these column flags. */
  ghost predicate Spells(b: Bytes, m: Message, flags: seq<byte>) {
    WfMessage(m) && FlagsOf(m, flags) && Encode(m, flags) <= b
  }

  /** The same, for what comes after the kind. */
  ghost predicate Body(b: Bytes, m: Message, flags: seq<byte>, end: int) {
    WfMessage(m) && FlagsOf(m, flags) && At(b, 1, EncodeBody(m, flags), end)
  }

  lemma BeginBack(b: Bytes)
    requires DecodeBegin(b).Ok?
    ensures var (m, end) := DecodeBegin(b).value; m.Begin? && Body(b, m, [], end)
  {
    U64Back(b, 1);
    var (lsn, p) := ReadUnsigned(b, 1, 8).value;
    TimestampBack(b, p);
    var (ts, q) := ReadTimestamp(b, p).value;
    U32Back(b, q);
    var (xid, r) := ReadUnsigned(b, q, 4).value;
    Join(b, p, I64(ts), q, U32(xid), r);
    Join(b, 1, U64(lsn), p, I64(ts) + U32(xid), r);
  }

  lemma CommitBack(b: Bytes)
    requires DecodeCommit(b).Ok?
    ensures var (m, end) := DecodeCommit(b).value; m.Commit? && Body(b, m, [], end)
  {
    ByteBack(b, 1);
    var (bits, p) := ReadByte(b, 1).value;
    U64Back(b, p);
    var (commitLsn, q) := ReadUnsigned(b, p, 8).value;
    U64Back(b, q);
    var (endLsn, r) := ReadUnsigned(b, q, 8).value;
    TimestampBack(b, r);
    var (ts, s) := ReadTimestamp(b, r).value;
    Join(b, q, U64(endLsn), r, I64(ts), s);
    Join(b, p, U64(commitLsn), q, U64(endLsn) + I64(ts), s);
    Join(b, 1, U8(bits), p, U64(commitLsn) + (U64(endLsn) + I64(ts)), s);
  }

  lemma OriginBack(b: Bytes)
    requires DecodeOrigin(b).Ok?
    ensures var (m, end) := DecodeOrigin(b).value; m.Origin? && Body(b, m, [], end)
  {
    U64Back(b, 1);
    var (lsn, p) := ReadUnsigned(b, 1, 8).value;
    CStringBack(b, p);
    var (name, q) := ReadCString(b, p).value;
    Join(b, 1, U64(lsn), p, EncodeCString(name), q);
  }

  lemma TypeBack(b: Bytes)
    requires DecodeType(b).Ok?
    ensures var (m, end) := DecodeType(b).value; m.TypeInfo? && Body(b, m, [], end)
  {
    U32Back(b, 1);
    var (oid, p) := ReadUnsigned(b, 1, 4).value;
    CStringBack(b, p);
    var (schema, q) := ReadCString(b, p).value;
    CStringBack(b, q);
    var (name, r) := ReadCString(b, q).value;
    Join(b, p, EncodeCString(schema), q, EncodeCString(name), r);
    Join(b, 1, U32(oid), p, EncodeCString(schema) + EncodeCString(name), r);
  }

  lemma RelationTailBack(b: Bytes, pos: int, relId: nat, schema: Text, name: Text) returns (flags: seq<byte>)
    requires 0 <= pos && DecodeColumns(b, pos, relId, schema, name).Ok?
    ensures var (m, end) := DecodeColumns(b, pos, relId, schema, name).value;
            && m.RelationMsg? && m.rel.relId == relId && m.rel.schema == schema && m.rel.name == name
            && WfIdentity(m.rel.replicaIdentity) && Fits16(|m.rel.columns|) && WfColumns(flags, m.rel.columns)
            && At(b, pos, RelationTail(m.rel, flags), end)
  {
    ByteBack(b, pos);
    var (identity, p) := ReadByte(b, pos).value;
    U16Back(b, p);
    var (count, q) := ReadUnsigned(b, p, 2).value;
    flags := ColumnsBack(b, q, count);
    var (columns, end) := ReadMany(ReadColumn, b, q, count).value;
    Join(b, p, U16(count), q, EncodeColumns(flags, columns), end);
    Join(b, pos, [identity], p, U16(count) + EncodeColumns(flags, columns), end);
  }

  lemma RelationBack(b: Bytes) returns (flags: seq<byte>)
    requires DecodeRelation(b).Ok?
    ensures var (m, end) := DecodeRelation(b).value; m.RelationMsg? && Body(b, m, flags, end)
  {
    U32Back(b, 1);
    var (relId, p) := ReadUnsigned(b, 1, 4).value;
    CStringBack(b, p);
    var (schema, q) := ReadCString(b, p).value;
    CStringBack(b, q);
    var (name, r) := ReadCString(b, q).value;
    flags := RelationTailBack(b, r, relId, schema, name);
    var (m, end) := DecodeColumns(b, r, relId, schema, name).value;
    var tail := RelationTail(m.rel, flags);
    Join(b, q, EncodeCString(name), r, tail, end);
    Join(b, p, EncodeCString(schema), q, EncodeCString(name) + tail, end);
    Join(b, 1, U32(relId), p, EncodeCString(schema) + (EncodeCString(name) + tail), end);
  }

  lemma InsertBack(b: Bytes)
    requires NoNegative(b) && DecodeInsert(b).Ok?
    ensures var (m, end) := DecodeInsert(b).value; m.InsertMsg? && Body(b, m, [], end)
  {
    U32Back(b, 1);
    var (relId, p) := ReadUnsigned(b, 1, 4).value;
    ByteBack(b, p);
    var (tag, q) := ReadByte(b, p).value;
    TupleBack(b, q);
    var (tuple, r) := ReadTuple(b, q).value;
    Join(b, p, ['N' as int], q, EncodeTuple(tuple), r);
    Join(b, 1, U32(relId), p, ['N' as int] + EncodeTuple(tuple), r);
  }

  lemma NewBack(b: Bytes, pos: int, relId: nat, before: Option<Tuple>, key: Option<Tuple>)
    requires NoNegative(b) && 0 <= pos && ReadByte(b, pos).Ok?
    requires var (tag, p) := ReadByte(b, pos).value; DecodeNew(b, p, relId, before, key, tag).Ok?
    ensures var (tag, p) := ReadByte(b, pos).value;
            var (m, end) := DecodeNew(b, p, relId, before, key, tag).value;
            && m == UpdateMsg(relId, before, key, m.tuple) && WfTuple(m.tuple)
            && At(b, pos, ['N' as int] + EncodeTuple(m.tuple), end)
  {
    ByteBack(b, pos);
    var (tag, p) := ReadByte(b, pos).value;
    TupleBack(b, p);
    var (tuple, end) := ReadTuple(b, p).value;
    Join(b, pos, ['N' as int], p, EncodeTuple(tuple), end);
  }

  lemma OldNewBack(b: Bytes, pos: int, q: int, relId: nat, tag: byte)
    requires NoNegative(b) && (tag == 'K' as int || tag == 'O' as int) && At(b, pos, [tag], q)
    requires DecodeOldNew(b, q, relId, tag).Ok?
    ensures var (m, end) := DecodeOldNew(b, q, relId, tag).value;
            && m.UpdateMsg? && m.relId == relId && (m.before.None? <==> m.key.Some?)
            && WfOptional(m.before) && WfOptional(m.key) && WfTuple(m.tuple)
            && At(b, pos, EncodeOptional(m.before, m.key, ['N' as int] + EncodeTuple(m.tuple)), end)
  {
    TupleBack(b, q);
    var (first, r) := ReadTuple(b, q).value;
    var (before, key) := if tag == 'K' as int then (None, Some(first)) else (Some(first), None);
    NewBack(b, r, relId, before, key);
    var (m, end) := DecodeOldNew(b, q, relId, tag).value;
    var last := ['N' as int] + EncodeTuple(m.tuple);
    Join(b, q, EncodeTuple(first), r, last, end);
    Join(b, pos, [tag], q, EncodeTuple(first) + last, end);
  }

  lemma UpdateBack(b: Bytes)
    requires NoNegative(b) && DecodeUpdate(b).Ok?
    ensures var (m, end) := DecodeUpdate(b).value; m.UpdateMsg? && Body(b, m, [], end)
  {
    U32Back(b, 1);
    var (relId, p) := ReadUnsigned(b, 1, 4).value;
    ByteBack(b, p);
    var (tag, q) := ReadByte(b, p).value;
    var (m, end) := DecodeUpdate(b).value;
    if tag == 'K' as int || tag == 'O' as int {
      OldNewBack(b, p, q, relId, tag);
    } else {
      NewBack(b, p, relId, None, None);
    }
    Join(b, 1, U32(relId), p, EncodeOptional(m.before, m.key, ['N' as int] + EncodeTuple(m.tuple)), end);
  }

  lemma DeleteBack(b: Bytes)
    requires NoNegative(b) && DecodeDelete(b).Ok?
    ensures var (m, end) := DecodeDelete(b).value; m.DeleteMsg? && Body(b, m, [], end)
  {
    U32Back(b, 1);
    var (relId, p) := ReadUnsigned(b, 1, 4).value;
    ByteBack(b, p);
    var (tag, q) := ReadByte(b, p).value;
    TupleBack(b, q);
    var (tuple, r) := ReadTuple(b, q).value;
    var (m, end) := DecodeDelete(b).value;
    NothingMore(EncodeTuple(tuple));
    Join(b, p, [tag], q, EncodeTuple(tuple), r);
    Join(b, 1, U32(relId), p, EncodeOptional(m.before, m.key, []), end);
  }

  lemma RelIdsBack(b: Bytes, pos: int, count: nat)
    requires 0 <= pos <= |b| && ReadMany(ReadRelId, b, pos, count).Ok?
    ensures var (relIds, end) := ReadMany(ReadRelId, b, pos, count).value;
            && |relIds| == count && (forall i :: 0 <= i < count ==> Fits32(relIds[i]))
            && At(b, pos, EncodeMany(U32, relIds), end)
  {
    var good := (id: nat, part: Bytes) => Fits32(id) && part == U32(id);
    forall i | 0 <= i && ReadRelId(b, i).Ok? ensures GoodPart(good, b, i, ReadRelId(b, i).value) {
      U32Back(b, i);
    }
    var parts := ManyBack(ReadRelId, good, b, pos, count);
    assert parts == Each(U32, ReadMany(ReadRelId, b, pos, count).value.0);
  }

  lemma TruncateBack(b: Bytes)
    requires DecodeTruncate(b).Ok?
    ensures var (m, end) := DecodeTruncate(b).value; m.TruncateMsg? && Body(b, m, [], end)
  {
    U32Back(b, 1);
    var (count, p) := ReadUnsigned(b, 1, 4).value;
    ByteBack(b, p);
    var (options, q) := ReadByte(b, p).value;
    RelIdsBack(b, q, count);
    var (relIds, end) := ReadMany(ReadRelId, b, q, count).value;
    Join(b, p, U8(options), q, EncodeMany(U32, relIds), end);
    Join(b, 1, U32(count), p, U8(options) + EncodeMany(U32, relIds), end);
  }

  lemma BodyBack(b: Bytes) returns (flags: seq<byte>)
    requires b != [] && NoNegative(b) && DecodeAt(b).Ok?
    ensures var (m, end) := DecodeAt(b).value; b[0] == Kind(m) && Body(b, m, flags, end)
  {
    flags := [];
    var kind := b[0];
    if kind == 'B' as int {
      BeginBack(b);
    } else if kind == 'C' as int {
      CommitBack(b);
    } else if kind == 'O' as int {
      OriginBack(b);
    } else if kind == 'R' as int {
      flags := RelationBack(b);
    } else if kind == 'Y' as int {
      TypeBack(b);
    } else if kind == 'I' as int {
      InsertBack(b);
    } else if kind == 'U' as int {
      UpdateBack(b);
    } else if kind == 'D' as int {
      DeleteBack(b);
    } else {
      TruncateBack(b);
    }
  }

  lemma SpelledIsDecoded(b: Bytes, m: Message, flags: seq<byte>)
    requires Spells(b, m, flags)
    ensures Decode(b) == Ok(m)
  {
    var front := Encode(m, flags);
    DecodeInvertsEncode(m, flags, b[|front|..]);
    PrefixAndRest(front, b);
  }

  lemma PrefixAndRest(x: Bytes, b: Bytes)
    requires x <= b
    ensures x + b[|x|..] == b
  {
  }

  lemma Spelled(b: Bytes, m: Message, flags: seq<byte>, end: int)
    requires b != [] && b[0] == Kind(m) && Body(b, m, flags, end)
    ensures Spells(b, m, flags)
  {
    assert b[..end] == [b[0]] + b[1..end];
  }

  lemma DecodedIsSpelled(b: Bytes, m: Message) returns (flags: seq<byte>)
    requires NoNegative(b) && Decode(b) == Ok(m)
    ensures Spells(b, m, flags)
  {
    flags := BodyBack(b);
    Spelled(b, m, flags, DecodeAt(b).value.1);
  }

  /** A buffer that begins with the wire form of a message is decoded into it; a buffer that is decoded
      into a message begins with its wire form, or holds a text cell of negative length. */
  lemma AcceptedIff(b: Bytes, m: Message)
    ensures (exists flags :: Spells(b, m, flags)) ==> Decode(b) == Ok(m)
    ensures Decode(b) == Ok(m) ==> (exists flags :: Spells(b, m, flags)) || exists i :: NegativeAt(b, i)
  {
    if flags :| Spells(b, m, flags) {
      SpelledIsDecoded(b, m, flags);
    }
    if Decode(b) == Ok(m) && NoNegative(b) {
      var flags := DecodedIsSpelled(b, m);
    }
  }

  // ---- how the rest is refused --------------------------------------------------------------------

  /** A buffer without one of the nine kinds in front is refused as malformed. */
  lemma KindRefused(b: Bytes)
    requires b == [] || b[0] !in {'B' as int, 'C' as int, 'O' as int, 'R' as int, 'Y' as int, 'I' as int, 'U' as int,
                                  'D' as int, 'T' as int}
    ensures Decode(b) == Err(ProtocolError)
  {
  }

  lemma {:induction false} NoZeroFound(b: Bytes, from: nat)
    requires from <= |b| && FindZero(b, from).None?
    ensures 0 !in b[from..]
    decreases |b| - from
  {
    if from < |b| {
      NoZeroFound(b, from + 1);
      assert b[from..] == [b[from]] + b[from + 1..];
    }
  }

  /** A text without its end is refused as malformed, one that is not UTF-8 with the language's own error. */
  lemma CStringRefused(b: Bytes, pos: nat)
    requires pos <= |b| && ReadCString(b, pos).Err?
    ensures if 0 !in b[pos..] then ReadCString(b, pos) == Err(ProtocolError)
            else
              && ReadCString(b, pos) == Err(UnicodeError)
              && exists end :: pos <= end < |b| && b[end] == 0 && 0 !in b[pos..end] && !IsText(b[pos..end])
  {
    if FindZero(b, pos).None? {
      NoZeroFound(b, pos);
    } else {
      FoundIsFirst(b, pos);
      var end := FindZero(b, pos).value;
      ValidUtf8Iff(b[pos..end]);
      assert b[pos..][end - pos] == 0;
    }
  }

  /** A cell of another kind than NULL, unchanged or text is refused as malformed. */
  lemma CellRefused(b: Bytes, pos: nat)
    requires pos < |b| && b[pos] !in {'n' as int, 'u' as int, 't' as int}
    ensures ReadCell(b, pos) == Err(ProtocolError)
  {
    ByteBack(b, pos);
    assert b[pos] == b[pos..pos + 1][0];
  }

  /** A time outside the years 1 to 9999 overflows. */
  lemma TimestampRefused(b: Bytes, pos: nat)
    requires pos + 8 <= |b| && ReadTimestamp(b, pos).Err?
    ensures ReadTimestamp(b, pos) == Err(OverflowError) && !WfTimestamp(Signed(b[pos..pos + 8]))
  {
    TakeBack(b, pos, 8);
    TimesAre(Signed(b[pos..pos + 8]));
  }
}
