/** How the store's operations combine: what a read or a lookup yields after
    an append, a batch append, an update or a removal. */
module StoreLaws {

  import opened Wrappers
  import opened Text
  import opened Numbers
  import opened Records
  import opened Codec
  import opened CodecLaws
  import opened Store

  /** No string value holds a carriage return, which a reader would take for
      the end of a line. */
  predicate NoReturns(fields: seq<Field>, values: seq<Value>)
    requires |values| == |fields|
  {
    forall j :: 0 <= j < |fields| && values[j].StrV? ==> '\r' !in values[j].s
  }

  /** The line Append writes for a storable record: one line a reader yields
      back whole, which decodes to the record and starts with its key chunk. */
  lemma AppendedLine(fields: seq<Field>, keyName: string, values: seq<Value>)
    requires Encodable(fields, keyName, values) && NoReturns(fields, values)
    ensures EncodeForAppend(fields, keyName, values).Ok?
    ensures var line := EncodeForAppend(fields, keyName, values).value;
      var key := KeyText(fields, keyName, values).value;
      WrittenLines(line) == [line] && Decode(fields, line) == Ok(values) &&
      line == EncodeLine(fields, keyName, key, values).value &&
      StartsWith(line, Chunk(keyName, key))
  {
    RoundTrip(fields, keyName, values);
    assert WellTypedRecord(fields, values) by {
      forall i | 0 <= i < |fields| ensures WellTyped(fields[i].kind, values[i]) {
        assert Storable(fields[i], values[i]);
      }
    }
    AppendLineBreakFree(fields, keyName, values);
    var k := IndexOfName(fields, keyName).value;
    var key := KeyText(fields, keyName, values).value;
    assert Identifier(fields[k].name);
    LineLayout(fields, keyName, key, values);
  }

  // ---------------------------------------------------------------------------
  // Reading

  /** A read succeeds exactly when every line decodes, and then yields each
      line's record, in file order. */
  lemma {:induction false} DecodeAllEach(fields: seq<Field>, lines: seq<string>)
    ensures DecodeAll(fields, lines).Ok? <==> forall i :: 0 <= i < |lines| ==> Decode(fields, lines[i]).Ok?
    ensures DecodeAll(fields, lines).Ok? ==>
      forall i :: 0 <= i < |lines| ==> DecodeAll(fields, lines).value[i] == Decode(fields, lines[i]).value
  {
    if DecodeAll(fields, lines).Ok? {
      forall i | 0 <= i < |lines|
        ensures Decode(fields, lines[i]) == Ok(DecodeAll(fields, lines).value[i])
      {
        DecodeAllAt(fields, lines, i);
      }
    } else if forall i :: 0 <= i < |lines| ==> Decode(fields, lines[i]).Ok? {
      DecodeAllOk(fields, lines);
    }
  }

  /** The record read at position `i` is that line's decoding. */
  lemma {:induction false} DecodeAllAt(fields: seq<Field>, lines: seq<string>, i: nat)
    requires DecodeAll(fields, lines).Ok? && i < |lines|
    ensures Decode(fields, lines[i]) == Ok(DecodeAll(fields, lines).value[i])
    decreases |lines|
  {
    var init := lines[..|lines| - 1];
    DecodeAllSnoc(fields, lines);
    if i < |init| {
      DecodeAllAt(fields, init, i);
      assert lines[i] == init[i];
    }
  }

  /** A file every line of which decodes is read whole. */
  lemma {:induction false} DecodeAllOk(fields: seq<Field>, lines: seq<string>)
    requires forall i :: 0 <= i < |lines| ==> Decode(fields, lines[i]).Ok?
    ensures DecodeAll(fields, lines).Ok?
    decreases |lines|
  {
    if lines != [] {
      var init := lines[..|lines| - 1];
      forall i | 0 <= i < |init| ensures Decode(fields, init[i]).Ok? {
        assert init[i] == lines[i];
      }
      DecodeAllOk(fields, init);
      DecodeAllSnoc(fields, lines);
      assert Decode(fields, lines[|lines| - 1]).Ok?;
    }
  }

  /** One more line read after the shorter file. */
  lemma DecodeAllSnoc(fields: seq<Field>, lines: seq<string>)
    requires lines != []
    ensures var before, record := DecodeAll(fields, lines[..|lines| - 1]), Decode(fields, lines[|lines| - 1]);
      DecodeAll(fields, lines) ==
        if before.Err? then Err(before.error) else if record.Err? then Err(record.error)
        else Ok(before.value + [record.value])
  {
  }

  /** Reading after an append yields the records read before, then the
      appended one. */
  lemma AppendThenRead(fields: seq<Field>, keyName: string, lines: seq<string>, values: seq<Value>)
    requires Encodable(fields, keyName, values) && NoReturns(fields, values)
    requires DecodeAll(fields, lines).Ok?
    ensures EncodeForAppend(fields, keyName, values).Ok?
    ensures DecodeAll(fields, lines + WrittenLines(EncodeForAppend(fields, keyName, values).value))
      == Ok(DecodeAll(fields, lines).value + [values])
  {
    AppendedLine(fields, keyName, values);
    var line := EncodeForAppend(fields, keyName, values).value;
    assert (lines + [line])[..|lines|] == lines;
  }

  /** After an append, looking up the record's key finds the record, unless an
      earlier line starts with the same key chunk. */
  lemma AppendThenLookup(fields: seq<Field>, keyName: string, lines: seq<string>, values: seq<Value>)
    requires Encodable(fields, keyName, values) && NoReturns(fields, values)
    requires !fields[IndexOfName(fields, keyName).value].kind.StrKind?
    requires forall i :: 0 <= i < |lines| ==>
      !StartsWith(lines[i], Chunk(keyName, KeyText(fields, keyName, values).value))
    ensures EncodeForAppend(fields, keyName, values).Ok?
    ensures Lookup(fields, keyName, true, lines + WrittenLines(EncodeForAppend(fields, keyName, values).value),
                   values[IndexOfName(fields, keyName).value]) == Ok(values)
  {
    AppendedLine(fields, keyName, values);
    var k := IndexOfName(fields, keyName).value;
    var line := EncodeForAppend(fields, keyName, values).value;
    var prefix := Chunk(keyName, KeyText(fields, keyName, values).value);
    AppendedKeyPrefix(fields, keyName, values);
    FirstAfter(lines, line, prefix);
  }

  /** The prefix Get(key) builds from a record's own non-string key is the
      key chunk Append writes. */
  lemma AppendedKeyPrefix(fields: seq<Field>, keyName: string, values: seq<Value>)
    requires Encodable(fields, keyName, values)
    requires !fields[IndexOfName(fields, keyName).value].kind.StrKind?
    ensures KeyPrefix(fields, keyName, values[IndexOfName(fields, keyName).value])
      == Ok(Chunk(keyName, KeyText(fields, keyName, values).value))
  {
    var k := IndexOfName(fields, keyName).value;
    assert Storable(fields[k], values[k]);
  }

  /** A line with the prefix after lines without it is the first with it. */
  lemma FirstAfter(lines: seq<string>, line: string, prefix: string)
    requires forall i :: 0 <= i < |lines| ==> !StartsWith(lines[i], prefix)
    requires StartsWith(line, prefix)
    ensures FirstStarting(lines + [line], prefix) == Some(|lines|)
  {
    var all := lines + [line];
    assert all[|lines|] == line;
    assert forall i :: 0 <= i < |lines| ==> all[i] == lines[i];
  }

  // ---------------------------------------------------------------------------
  // Batch append

  /** Until an element fails, the batch reports no error. */
  lemma {:induction false} BatchOkSoFar(outcomes: seq<Result<string, Error>>, n: nat)
    requires n <= |outcomes| && forall i :: 0 <= i < n ==> outcomes[i].Ok?
    ensures Batch(outcomes, n).1 == None
    decreases n
  {
    if n > 0 {
      BatchOkSoFar(outcomes, n - 1);
    }
  }

  /** The batch stops at its first failing element with that element's error,
      keeping what the elements before it wrote. */
  lemma BatchStopsAtFirstError(outcomes: seq<Result<string, Error>>, j: nat)
    requires j < |outcomes| && outcomes[j].Err?
    requires forall i :: 0 <= i < j ==> outcomes[i].Ok?
    ensures Batch(outcomes, j).1 == None
    ensures Batch(outcomes, |outcomes|) == (Batch(outcomes, j).0, Some(outcomes[j].error))
  {
    BatchOkSoFar(outcomes, j);
    BatchErrorPersists(outcomes, j + 1, |outcomes|);
  }

  /** When every element's line is one reader line, the batch writes one line
      per element, in list order, and reports no error. */
  lemma {:induction false} BatchWritesEach(outcomes: seq<Result<string, Error>>, n: nat)
    requires n <= |outcomes|
    requires forall i :: 0 <= i < n ==> outcomes[i].Ok? && WrittenLines(outcomes[i].value) == [outcomes[i].value]
    ensures Batch(outcomes, n).1 == None && |Batch(outcomes, n).0| == n
    ensures forall i :: 0 <= i < n ==> Batch(outcomes, n).0[i] == outcomes[i].value
    decreases n
  {
    if n > 0 {
      BatchWritesEach(outcomes, n - 1);
    }
  }

  /** Appending a list of storable records writes one line per record, and
      reading those lines gives the records back, in list order. */
  lemma AppendAllThenRead(fields: seq<Field>, keyName: string, models: seq<Model>)
    requires forall i :: 0 <= i < |models| ==> Conforms(fields, models[i])
    requires forall i :: 0 <= i < |models| ==>
      models[i].Instance? && Encodable(fields, keyName, models[i].values) && NoReturns(fields, models[i].values)
    ensures BatchOf(fields, keyName, models).1 == None
    ensures DecodeAll(fields, BatchOf(fields, keyName, models).0).Ok?
    ensures var records := DecodeAll(fields, BatchOf(fields, keyName, models).0).value;
      |records| == |models| && forall i :: 0 <= i < |models| ==> records[i] == models[i].values
  {
    ConformsSized(fields, models);
    var outcomes := Outcomes(fields, keyName, models);
    OutcomesWritten(fields, keyName, models);
    BatchWritesEach(outcomes, |models|);
    DecodeAllEach(fields, Batch(outcomes, |models|).0);
  }

  /** Each storable record of the list encodes to one line that decodes back to it. */
  lemma OutcomesWritten(fields: seq<Field>, keyName: string, models: seq<Model>)
    requires forall i :: 0 <= i < |models| ==> Sized(fields, models[i])
    requires forall i :: 0 <= i < |models| ==>
      models[i].Instance? && Encodable(fields, keyName, models[i].values) && NoReturns(fields, models[i].values)
    ensures var outcomes := Outcomes(fields, keyName, models);
      forall i :: 0 <= i < |models| ==>
        outcomes[i].Ok? && WrittenLines(outcomes[i].value) == [outcomes[i].value] &&
        Decode(fields, outcomes[i].value) == Ok(models[i].values)
  {
    var outcomes := Outcomes(fields, keyName, models);
    forall i | 0 <= i < |models|
      ensures outcomes[i].Ok? && WrittenLines(outcomes[i].value) == [outcomes[i].value]
      ensures Decode(fields, outcomes[i].value) == Ok(models[i].values)
    {
      AppendedLine(fields, keyName, models[i].values);
    }
  }

  // ---------------------------------------------------------------------------
  // Update

  /** A copy where no line has the key chunk is the file as it was. */
  lemma {:induction false} UpdateNoMatch(lines: seq<string>, prefix: string, encoded: Result<string, Error>)
    requires forall i :: 0 <= i < |lines| ==> !StartsWith(lines[i], prefix)
    ensures UpdatedLines(lines, prefix, encoded) == Ok(lines)
    decreases |lines|
  {
    if lines != [] {
      var init, last := lines[..|lines| - 1], lines[|lines| - 1];
      assert forall i :: 0 <= i < |init| ==> init[i] == lines[i];
      UpdateNoMatch(init, prefix, encoded);
      assert !StartsWith(last, prefix);
      UpdatedSnoc(lines, prefix, encoded);
      assert init + [last] == lines;
    }
  }

  /** The copy of one more line after the shorter file. */
  lemma UpdatedSnoc(lines: seq<string>, prefix: string, encoded: Result<string, Error>)
    requires lines != []
    ensures var done, line := UpdatedLines(lines[..|lines| - 1], prefix, encoded), lines[|lines| - 1];
      UpdatedLines(lines, prefix, encoded) ==
        if done.Err? then Err(done.error)
        else if !StartsWith(line, prefix) then Ok(done.value + [line])
        else if encoded.Err? then Err(encoded.error)
        else Ok(done.value + WrittenLines(encoded.value))
  {
  }

  /** With an encoding that is one reader line, the copy has the file's lines in
      order, each line with the key chunk replaced by the encoding. */
  lemma {:induction false} UpdateReplaces(lines: seq<string>, prefix: string, written: string)
    requires WrittenLines(written) == [written]
    ensures UpdatedLines(lines, prefix, Ok(written)).Ok?
    ensures var copy := UpdatedLines(lines, prefix, Ok(written)).value;
      |copy| == |lines| &&
      forall i :: 0 <= i < |lines| ==> copy[i] == if StartsWith(lines[i], prefix) then written else lines[i]
    decreases |lines|
  {
    if lines != [] {
      var init := lines[..|lines| - 1];
      UpdateReplaces(init, prefix, written);
      assert forall i :: 0 <= i < |init| ==> init[i] == lines[i];
    }
  }

  /** When the record cannot be encoded, the update fails as soon as one line
      has the key chunk. */
  lemma {:induction false} UpdateFailsOnMatch(lines: seq<string>, prefix: string, e: Error, j: nat)
    requires j < |lines| && StartsWith(lines[j], prefix)
    ensures UpdatedLines(lines, prefix, Err(e)) == Err(e)
    decreases |lines|
  {
    if j < |lines| - 1 {
      var init := lines[..|lines| - 1];
      assert init[j] == lines[j];
      UpdateFailsOnMatch(init, prefix, e, j);
    }
  }

  /** A line a reader yields has no "\n", so it cannot start with a text that
      has one. */
  lemma NewlineBlocksPrefix(s: string, p: string)
    requires '\n' in p && '\n' !in s
    ensures !StartsWith(s, p)
  {
    var m :| 0 <= m < |p| && p[m] == '\n';
    if |p| <= |s| {
      assert s[..|p|][m] == s[m];
    }
  }

  /** Update does not refuse a key with "\n" as Append does: such a key matches
      no line, and the update leaves the file as it was. */
  lemma NewlineKeyUpdatesNothing(lines: seq<string>, keyName: string, key: string, encoded: Result<string, Error>)
    requires '\n' in key && forall i :: 0 <= i < |lines| ==> BreakFree(lines[i])
    ensures UpdatedLines(lines, Chunk(keyName, key), encoded) == Ok(lines)
  {
    var prefix := Chunk(keyName, key);
    var m :| 0 <= m < |key| && key[m] == '\n';
    assert prefix[|Open(keyName)| + m] == '\n';
    forall i | 0 <= i < |lines| ensures !StartsWith(lines[i], prefix) {
      NewlineBlocksPrefix(lines[i], prefix);
    }
    UpdateNoMatch(lines, prefix, encoded);
  }

  /** After an update of a record whose key chunk starts some line, looking the
      key up finds the record's current values. */
  lemma UpdateThenLookup(fields: seq<Field>, keyName: string, lines: seq<string>, values: seq<Value>, j: nat)
    requires Encodable(fields, keyName, values) && NoReturns(fields, values)
    requires !fields[IndexOfName(fields, keyName).value].kind.StrKind?
    requires j < |lines| && StartsWith(lines[j], Chunk(keyName, KeyText(fields, keyName, values).value))
    ensures var key := KeyText(fields, keyName, values).value;
      var copy := UpdatedLines(lines, Chunk(keyName, key), EncodeLine(fields, keyName, key, values));
      copy.Ok? && Lookup(fields, keyName, true, copy.value, values[IndexOfName(fields, keyName).value]) == Ok(values)
  {
    AppendedLine(fields, keyName, values);
    var k := IndexOfName(fields, keyName).value;
    var key := KeyText(fields, keyName, values).value;
    var line := EncodeForAppend(fields, keyName, values).value;
    var prefix := Chunk(keyName, key);
    assert Storable(fields[k], values[k]);
    assert KeyPrefix(fields, keyName, values[k]) == Ok(prefix);
    UpdateReplaces(lines, prefix, line);
    var copy := UpdatedLines(lines, prefix, Ok(line)).value;
    assert StartsWith(copy[j], prefix);
    var first := FirstStarting(copy, prefix);
    assert first.Some?;
    assert copy[first.value] == line;
  }

  // ---------------------------------------------------------------------------
  // Remove

  /** Remove's copy of two runs of lines is the copy of each, one after the
      other: lines are dropped one by one and never reordered. */
  lemma {:induction false} KeptConcat(a: seq<string>, b: seq<string>, prefix: string)
    ensures Kept(a + b, prefix) == Kept(a, prefix) + Kept(b, prefix)
    decreases |b|
  {
    if b == [] {
      assert a + b == a;
    } else {
      var init := b[..|b| - 1];
      KeptConcat(a, init, prefix);
      assert (a + b)[..|a + b| - 1] == a + init;
    }
  }

  /** Every line without the prefix survives the removal. */
  lemma {:induction false} KeptKeepsOthers(lines: seq<string>, prefix: string)
    ensures forall i :: 0 <= i < |lines| && !StartsWith(lines[i], prefix) ==> lines[i] in Kept(lines, prefix)
    decreases |lines|
  {
    if lines != [] {
      var init := lines[..|lines| - 1];
      KeptKeepsOthers(init, prefix);
      assert forall i :: 0 <= i < |init| ==> init[i] == lines[i];
    }
  }

  /** After the lines of a key are removed, looking the key up gives a fresh
      instance. */
  lemma RemoveThenLookup(fields: seq<Field>, keyName: string, fileExists: bool, lines: seq<string>, key: Value)
    requires KeyPrefix(fields, keyName, key).Ok?
    ensures Lookup(fields, keyName, fileExists, Kept(lines, KeyPrefix(fields, keyName, key).value), key)
      == Ok(Defaults(fields))
  {
    var prefix := KeyPrefix(fields, keyName, key).value;
    var kept := Kept(lines, prefix);
    assert FirstStarting(kept, prefix).None?;
  }

  /** The schema of a record type whose one property is the int key `ID`. */
  function IdFields(): seq<Field> {
    [Field("ID", IntKind)]
  }

  /** The key chunks of records 0 and 5 of that schema. */
  lemma IdChunks()
    ensures IndexOfName(IdFields(), "ID") == Some(0) && Identifier("ID")
    ensures Render(IntKind, IntV(0)) == Ok("0") && Chunk("ID", "0") == "<db.ID>0</db.ID>"
    ensures Render(IntKind, IntV(5)) == Ok("5") && Chunk("ID", "5") == "<db.ID>5</db.ID>"
  {
    assert IntToString(0) == "0";
    assert IntToString(5) == "5";
  }

  /** `Remove(5)` as written keys its filter on 0, the default int, and so
      leaves the line of record 5: a lookup of 5 still finds it. */
  lemma RemoveLeavesRecord()
    ensures EncodeForAppend(IdFields(), "ID", [IntV(5)]) == Ok("<db.ID>5</db.ID>")
    ensures DefaultKeyPrefix(IdFields(), "ID") == Ok("<db.ID>0</db.ID>")
    ensures Kept(["<db.ID>5</db.ID>"], "<db.ID>0</db.ID>") == ["<db.ID>5</db.ID>"]
    ensures Lookup(IdFields(), "ID", true, Kept(["<db.ID>5</db.ID>"], "<db.ID>0</db.ID>"), IntV(5)) == Ok([IntV(5)])
  {
    var fields := IdFields();
    IdChunks();
    assert Names(fields) == ["ID"];
    assert Encodable(fields, "ID", [IntV(5)]);
    AppendedLine(fields, "ID", [IntV(5)]);
    assert NonKeyChunks(fields, "ID", [IntV(5)], 1) == Ok([]);
  }

  /** `Remove(5)` as intended keys its filter on 5, drops the line of record 5,
      and a lookup of 5 gives a fresh instance. */
  lemma RemoveKeyDropsRecord()
    ensures KeyPrefix(IdFields(), "ID", IntV(5)) == Ok("<db.ID>5</db.ID>")
    ensures Kept(["<db.ID>5</db.ID>"], "<db.ID>5</db.ID>") == []
    ensures Lookup(IdFields(), "ID", true, Kept(["<db.ID>5</db.ID>"], "<db.ID>5</db.ID>"), IntV(5)) == Ok([IntV(0)])
  {
    IdChunks();
    assert Defaults(IdFields()) == [IntV(0)];
    RemoveThenLookup(IdFields(), "ID", true, ["<db.ID>5</db.ID>"], IntV(5));
  }
}
