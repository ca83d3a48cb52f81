/** Worked values of the relational layer's formats (src/relational/catalog.cpp, src/relational/row.cpp,
    include/mosaicdb/schema.h): the keys in readable form, and the bytes of a row and of a schema. */
module KnownRows {
  import opened Bytes
  import opened Codec
  import opened Keys
  import opened Values
  import opened Catalog

  // ---- Keys as text. ----

  /** Where a table's rows, schema and counter are stored. */
  lemma KeysAsText(table: Bytes, pk: Bytes)
    ensures RowKey(table, pk) == Text("__table:") + table + Text(":row:") + pk
    ensures RowPrefixEnd(table) == Text("__table:") + table + Text(":row:~")
    ensures CatalogKey(table) == Text("__catalog:") + table
    ensures MetaKey(table, NEXT_ROWID) == Text("__meta:") + table + Text(":next_rowid")
  {
    assert Text("__table:") == TABLE_PREFIX;
    assert Text(":row:") == ROW_MARK && Text(":row:~") == ROW_MARK + [TILDE];
    assert Text("__catalog:") == CATALOG_PREFIX;
    assert Text("__meta:") == META_PREFIX;
    assert Text(":next_rowid") == [COLON] + NEXT_ROWID;
  }

  // ---- A row. ----

  /** Small numbers in four bytes. */
  lemma SmallLe(n: nat)
    requires n < 256
    ensures Le(n, 4) == [n, 0, 0, 0]
  {
    assert Le(0, 3) == [0, 0, 0];
  }

  lemma LeStep(d: Byte, n: nat, width: nat)
    ensures Le(d + 256 * n, width + 1) == [d] + Le(n, width)
  {
  }

  lemma LeLast(d: Byte)
    ensures Le(d, 1) == [d]
  {
  }

  lemma MinusTwo()
    ensures Le(Unsigned(-2), 8) == [0xFE, 0xFF, 0xFF, 0xFF, 0xFF, 0xFF, 0xFF, 0xFF]
  {
    hide Le;
    LeStep(0xFE, 0xFFFFFFFFFFFFFF, 7);
    LeStep(0xFF, 0xFFFFFFFFFFFF, 6);
    LeStep(0xFF, 0xFFFFFFFFFF, 5);
    LeStep(0xFF, 0xFFFFFFFF, 4);
    LeStep(0xFF, 0xFFFFFF, 3);
    LeStep(0xFF, 0xFFFF, 2);
    LeStep(0xFF, 0xFF, 1);
    LeLast(0xFF);
  }

  lemma OneAndAHalf()
    ensures Le(0x3FF8_0000_0000_0000, 8) == [0x00, 0x00, 0x00, 0x00, 0x00, 0x00, 0xF8, 0x3F]
  {
    hide Le;
    LeStep(0x00, 0x3FF80000000000, 7);
    LeStep(0x00, 0x3FF800000000, 6);
    LeStep(0x00, 0x3FF8000000, 5);
    LeStep(0x00, 0x3FF80000, 4);
    LeStep(0x00, 0x3FF800, 3);
    LeStep(0x00, 0x3FF8, 2);
    LeStep(0xF8, 0x3F, 1);
    LeLast(0x3F);
  }

  lemma NumberBytes()
    ensures Canonical(MakeInt(-2)) && Canonical(MakeFloat(0x3FF8_0000_0000_0000))
    ensures EncodeValue(MakeInt(-2)) ==
      [0x01, 0x00, 0x08, 0x00, 0x00, 0x00, 0xFE, 0xFF, 0xFF, 0xFF, 0xFF, 0xFF, 0xFF, 0xFF]
    ensures EncodeValue(MakeFloat(0x3FF8_0000_0000_0000)) ==
      [0x02, 0x00, 0x08, 0x00, 0x00, 0x00, 0x00, 0x00, 0x00, 0x00, 0x00, 0x00, 0xF8, 0x3F]
  {
    hide Le;
    SmallLe(8);
    MinusTwo();
    OneAndAHalf();
  }

  lemma OtherBytes()
    ensures Canonical(MakeText([0x68, 0x69])) && Canonical(MakeBool(true)) && Canonical(MakeNull(INT))
    ensures EncodeValue(MakeText([0x68, 0x69])) == [0x03, 0x00, 0x02, 0x00, 0x00, 0x00, 0x68, 0x69]
    ensures EncodeValue(MakeBool(true)) == [0x04, 0x00, 0x01, 0x00, 0x00, 0x00, 0x01]
    ensures EncodeValue(MakeNull(INT)) == [0x01, 0x01, 0x00, 0x00, 0x00, 0x00]
  {
    hide Le;
    SmallLe(0);
    SmallLe(1);
    SmallLe(2);
  }

  /** A cell of each type and a NULL: type, NULL flag, length, and the bytes of the value. */
  lemma CellBytes()
    ensures Canonical(MakeInt(-2)) && Canonical(MakeFloat(0x3FF8_0000_0000_0000)) && Canonical(MakeBool(true))
    ensures Canonical(MakeText([0x68, 0x69])) && Canonical(MakeNull(INT))
    ensures EncodeValue(MakeInt(-2)) ==
      [0x01, 0x00, 0x08, 0x00, 0x00, 0x00, 0xFE, 0xFF, 0xFF, 0xFF, 0xFF, 0xFF, 0xFF, 0xFF]
    ensures EncodeValue(MakeFloat(0x3FF8_0000_0000_0000)) ==
      [0x02, 0x00, 0x08, 0x00, 0x00, 0x00, 0x00, 0x00, 0x00, 0x00, 0x00, 0x00, 0xF8, 0x3F]
    ensures EncodeValue(MakeText([0x68, 0x69])) == [0x03, 0x00, 0x02, 0x00, 0x00, 0x00, 0x68, 0x69]
    ensures EncodeValue(MakeBool(true)) == [0x04, 0x00, 0x01, 0x00, 0x00, 0x00, 0x01]
    ensures EncodeValue(MakeNull(INT)) == [0x01, 0x01, 0x00, 0x00, 0x00, 0x00]
  {
    hide EncodeValue;
    NumberBytes();
    OtherBytes();
  }

  /** A whole row: the number of cells, then the cells. */
  lemma RowBytes()
    ensures AllCanonical([MakeInt(-2), MakeBool(true)])
    ensures EncodeRow([MakeInt(-2), MakeBool(true)]) ==
      [0x02, 0x00, 0x00, 0x00] +
      [0x01, 0x00, 0x08, 0x00, 0x00, 0x00, 0xFE, 0xFF, 0xFF, 0xFF, 0xFF, 0xFF, 0xFF, 0xFF] +
      [0x04, 0x00, 0x01, 0x00, 0x00, 0x00, 0x01]
  {
    hide Le;
    hide EncodeValue;
    hide Canonical;
    SmallLe(2);
    CellBytes();
    var row := [MakeInt(-2), MakeBool(true)];
    assert row[1..] == [MakeBool(true)] && row[1..][1..] == [];
  }

  /** The values the code can hold: 64-bit integers and floats, and texts whose length fits four bytes. */
  lemma Ranges(n: int, b: nat, t: Bytes)
    ensures Canonical(MakeInt(n)) <==> -0x8000_0000_0000_0000 <= n <= 0x7FFF_FFFF_FFFF_FFFF
    ensures Canonical(MakeFloat(b)) <==> b <= 0xFFFF_FFFF_FFFF_FFFF
    ensures Canonical(MakeText(t)) <==> |t| <= 0xFFFF_FFFF
  {
  }

  // ---- A schema. ----

  /** Table t with the columns id INT PRIMARY KEY and a TEXT NOT NULL: name, key, and per column its type byte, the NOT
      NULL flag and the key flag. */
  lemma SchemaBytes()
    ensures EncodeSchema(Schema([0x74], [ColumnDef([0x69, 0x64], 0x01, true, true),
        ColumnDef([0x61], 0x03, true, false)], [0x69, 0x64])) ==
      [0x01, 0x00, 0x00, 0x00, 0x74] + [0x02, 0x00, 0x00, 0x00, 0x69, 0x64] +
      [0x02, 0x00, 0x00, 0x00] +
      [0x02, 0x00, 0x00, 0x00, 0x69, 0x64, 0x01, 0x01, 0x01] + [0x01, 0x00, 0x00, 0x00, 0x61, 0x03, 0x01, 0x00]
  {
    hide Le;
    SmallLe(1);
    SmallLe(2);
    var id, a := ColumnDef([0x69, 0x64], 0x01, true, true), ColumnDef([0x61], 0x03, true, false);
    assert [id, a][1..] == [a] && [a][1..] == [];
    assert EncodeColumns([a]) == EncodeColumn(a) + EncodeColumns([]);
  }
}
