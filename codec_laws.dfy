/** Properties of the record codec: the layout of an encoded line, that Append
    never writes a line break of its own, how the decoder fills an instance,
    and that decoding an encoded record gives the record back. */
module CodecLaws {

  import opened Wrappers
  import opened Text
  import opened Records
  import opened Codec

  /** The records that round-trip: a well-formed record type whose key property
      exists, and values none of which is null, whose strings avoid the markers
      of the format, and whose key has no "\n" (Append refuses one). */
  predicate Encodable(fields: seq<Field>, keyName: string, values: seq<Value>) {
    WellFormed(fields) && |values| == |fields| && IndexOfName(fields, keyName).Some? &&
    (forall i :: 0 <= i < |fields| ==> Storable(fields[i], values[i])) &&
    var k := IndexOfName(fields, keyName).value;
    values[k].StrV? ==> '\n' !in values[k].s
  }

  /** The instance after the key chunk and the chunks of properties before `i`:
      those properties hold the record's values, the others their defaults. */
  ghost function Filled(fields: seq<Field>, values: seq<Value>, k: nat, i: nat): (r: seq<Value>)
    requires |values| == |fields|
    ensures |r| == |fields|
  {
    seq(|fields|, j requires 0 <= j < |fields| =>
      if j < i || j == k then values[j] else Default(fields[j].kind))
  }

  // ---------------------------------------------------------------------------
  // Encoding

  /** The key chunk is written exactly as a non-key chunk of the same value
      would be: a key without "\n" has nothing to escape. */
  lemma KeyChunkAsField(fields: seq<Field>, keyName: string, values: seq<Value>)
    requires Encodable(fields, keyName, values)
    ensures var k := IndexOfName(fields, keyName).value;
      KeyText(fields, keyName, values) == FieldText(fields[k], values[k])
  {
    var k := IndexOfName(fields, keyName).value;
    if values[k].StrV? {
      ReplaceCharAbsent(values[k].s, '\n', Break);
    }
  }

  /** Rendering a well-typed value that is not null leaves no "\n" in the text,
      and no "\r" unless a string value holds one. */
  lemma FieldTextBreaks(f: Field, v: Value)
    requires Identifier(f.name) && WellFormedKind(f.kind) && WellTyped(f.kind, v) && !v.NullV?
    ensures '\n' !in FieldText(f, v).value
    ensures !(v.StrV? && '\r' in v.s) ==> '\r' !in FieldText(f, v).value
  {
    if v.StrV? {
      ReplaceRemovesChar(v.s, '\n', Break);
      if '\r' !in v.s {
        ReplaceKeepsCharOut(v.s, "\n", Break, '\r');
      }
    } else {
      RenderPlain(f.kind, v);
    }
  }

  /** A tag holds no line break. */
  lemma ChunkBreaks(name: string, text: string, c: char)
    requires Identifier(name) && (c == '\n' || c == '\r') && c !in text
    ensures c !in Chunk(name, text)
  {
    assert forall ch :: ch in name ==> IdentChar(ch);
  }

  /** The non-key chunks of a well-typed record hold no "\n", and no "\r" when no
      string value does. */
  lemma {:induction false} NonKeyChunksBreaks(fields: seq<Field>, keyName: string, values: seq<Value>, i: nat, c: char)
    requires WellFormed(fields) && WellTypedRecord(fields, values) && i <= |fields|
    requires NonKeyChunks(fields, keyName, values, i).Ok?
    requires c == '\n' || (c == '\r' && forall j :: 0 <= j < |fields| && values[j].StrV? ==> '\r' !in values[j].s)
    ensures forall x :: x in NonKeyChunks(fields, keyName, values, i).value ==> c !in x
  {
    if i > 0 {
      var j := i - 1;
      assert i == j + 1;
      NonKeyChunksBreaks(fields, keyName, values, j, c);
      ChunkBreaksStep(fields, keyName, values, j, c);
    }
  }

  /** The step of NonKeyChunksBreaks: the chunk of property `j` holds no `c` either. */
  lemma ChunkBreaksStep(fields: seq<Field>, keyName: string, values: seq<Value>, j: nat, c: char)
    requires WellFormed(fields) && WellTypedRecord(fields, values) && j < |fields|
    requires NonKeyChunks(fields, keyName, values, j + 1).Ok?
    requires c == '\n' || (c == '\r' && forall i :: 0 <= i < |fields| && values[i].StrV? ==> '\r' !in values[i].s)
    requires forall x :: x in NonKeyChunks(fields, keyName, values, j).value ==> c !in x
    ensures forall x :: x in NonKeyChunks(fields, keyName, values, j + 1).value ==> c !in x
  {
    if fields[j].name != keyName {
      FieldTextBreaks(fields[j], values[j]);
      ChunkBreaks(fields[j].name, FieldText(fields[j], values[j]).value, c);
    }
  }

  /** The layout of a line: it starts with the key chunk, holds the non-key
      chunks in declaration order between separators, and does not end with a
      separator (it ends with a close tag). */
  lemma LineLayout(fields: seq<Field>, keyName: string, keyText: string, values: seq<Value>)
    requires |values| == |fields| && Identifier(keyName)
    requires forall i :: 0 <= i < |fields| ==> Identifier(fields[i].name)
    requires EncodeLine(fields, keyName, keyText, values).Ok?
    ensures var line := EncodeLine(fields, keyName, keyText, values).value;
      var chunks := NonKeyChunks(fields, keyName, values, |fields|).value;
      line == Join([Chunk(keyName, keyText)] + chunks, Sep) &&
      StartsWith(line, Chunk(keyName, keyText)) && !EndsWith(line, Sep)
  {
    var chunks := NonKeyChunks(fields, keyName, values, |fields|).value;
    var head := Chunk(keyName, keyText);
    var line := Join([head] + chunks, Sep);
    if chunks == [] {
      assert line == head;
    } else {
      assert line == head + Sep + Join(chunks, Sep);
      assert line[..|head|] == head;
    }
    ChunksEndInName(fields, keyName, values, |fields|);
    ChunkEndsInName(keyName, keyText);
    JoinEndsInName([head] + chunks);
  }

  /** Every non-key chunk ends with an identifier character and '>'. */
  lemma {:induction false} ChunksEndInName(fields: seq<Field>, keyName: string, values: seq<Value>, i: nat)
    requires i <= |fields| && |values| == |fields|
    requires forall j :: 0 <= j < |fields| ==> Identifier(fields[j].name)
    requires NonKeyChunks(fields, keyName, values, i).Ok?
    ensures forall x :: x in NonKeyChunks(fields, keyName, values, i).value ==> EndsInName(x)
  {
    if i > 0 {
      ChunksEndInName(fields, keyName, values, i - 1);
      if fields[i - 1].name != keyName {
        ChunkEndsInName(fields[i - 1].name, FieldText(fields[i - 1], values[i - 1]).value);
      }
    }
  }

  /** The last two characters of a close tag: a name character and '>'. */
  predicate EndsInName(x: string) {
    |x| >= 2 && x[|x| - 1] == '>' && IdentChar(x[|x| - 2])
  }

  lemma ChunkEndsInName(name: string, text: string)
    requires Identifier(name)
    ensures EndsInName(Chunk(name, text))
  {
    var c := Chunk(name, text);
    assert c[|c| - 2] == name[|name| - 1];
  }

  /** A join of such pieces ends with them, so not with the separator, whose
      last but one character is '/'. */
  lemma {:induction false} JoinEndsInName(pieces: seq<string>)
    requires pieces != []
    requires forall x :: x in pieces ==> EndsInName(x)
    ensures EndsInName(Join(pieces, Sep)) && !EndsWith(Join(pieces, Sep), Sep)
    decreases |pieces|
  {
    var s := Join(pieces, Sep);
    if |pieces| > 1 {
      assert forall x :: x in pieces[1..] ==> x in pieces;
      JoinEndsInName(pieces[1..]);
      EndsInNameAppend(pieces[0] + Sep, Join(pieces[1..], Sep));
    } else {
      assert pieces[0] in pieces;
    }
    assert EndsInName(s);
    if |s| >= |Sep| {
      assert s[|s| - |Sep|..][6] == s[|s| - 2];
      assert Sep[6] == '/';
    }
  }

  lemma EndsInNameAppend(a: string, b: string)
    requires EndsInName(b)
    ensures EndsInName(a + b)
  {
    assert (a + b)[|a + b| - 1] == b[|b| - 1];
    assert (a + b)[|a + b| - 2] == b[|b| - 2];
  }

  /** Append writes no "\n" of its own: the key is refused if it has one, and
      string values have theirs escaped. A line also holds no "\r" unless a
      string value does, so it reads back as exactly one line. */
  lemma AppendLineBreakFree(fields: seq<Field>, keyName: string, values: seq<Value>)
    requires WellFormed(fields) && WellTypedRecord(fields, values)
    requires EncodeForAppend(fields, keyName, values).Ok?
    ensures '\n' !in EncodeForAppend(fields, keyName, values).value
    ensures (forall j :: 0 <= j < |fields| && values[j].StrV? ==> '\r' !in values[j].s) ==>
      WrittenLines(EncodeForAppend(fields, keyName, values).value) == [EncodeForAppend(fields, keyName, values).value]
  {
    var key := KeyText(fields, keyName, values).value;
    var k := IndexOfName(fields, keyName).value;
    var chunks := NonKeyChunks(fields, keyName, values, |fields|).value;
    var pieces := [Chunk(keyName, key)] + chunks;
    var line := EncodeForAppend(fields, keyName, values).value;
    assert line == Join(pieces, Sep);
    NonKeyChunksBreaks(fields, keyName, values, |fields|, '\n');
    ChunkBreaks(keyName, key, '\n');
    assert forall i :: 0 <= i < |pieces| ==> '\n' !in pieces[i] by {
      assert forall i :: 1 <= i < |pieces| ==> pieces[i] in chunks;
    }
    JoinKeepsCharOut(pieces, Sep, '\n');
    if forall j :: 0 <= j < |fields| && values[j].StrV? ==> '\r' !in values[j].s {
      NonKeyChunksBreaks(fields, keyName, values, |fields|, '\r');
      if values[k].NullV? {
        assert false;
      } else if values[k].StrV? {
        assert '\r' !in key;
      } else {
        RenderPlain(fields[k].kind, values[k]);
      }
      ChunkBreaks(keyName, key, '\r');
      assert forall i :: 0 <= i < |pieces| ==> '\r' !in pieces[i] by {
        assert forall i :: 1 <= i < |pieces| ==> pieces[i] in chunks;
      }
      JoinKeepsCharOut(pieces, Sep, '\r');
      WrittenBreakFree(line);
    }
  }

  // ---------------------------------------------------------------------------
  // Decoding

  /** A chunk of property `j` goes to property `j`: no other property's open tag
      is a prefix of it. */
  lemma MatchOwnChunk(fields: seq<Field>, j: nat, text: string)
    requires WellFormed(fields) && j < |fields|
    ensures MatchField(fields, Chunk(fields[j].name, text)) == Some(j)
  {
    var c := Chunk(fields[j].name, text);
    ChunkEnds(fields[j].name, text);
    OthersDoNotMatch(fields, j, text);
    FirstMatch(fields, c, j);
  }

  /** The first property whose open tag starts a chunk is the one it matches. */
  lemma FirstMatch(fields: seq<Field>, c: string, j: nat)
    requires j < |fields| && StartsWith(c, Open(fields[j].name))
    requires forall i :: 0 <= i < j ==> !StartsWith(c, Open(fields[i].name))
    ensures MatchField(fields, c) == Some(j)
  {
  }

  /** No other property's open tag starts a chunk of property `j`. */
  lemma OthersDoNotMatch(fields: seq<Field>, j: nat, text: string)
    requires WellFormed(fields) && j < |fields|
    ensures forall i :: 0 <= i < j ==> !StartsWith(Chunk(fields[j].name, text), Open(fields[i].name))
  {
    var n := fields[j].name;
    var rest := text + Close(n);
    assert Chunk(n, text) == Open(n) + rest;
    forall i | 0 <= i < j ensures !StartsWith(Open(n) + rest, Open(fields[i].name)) {
      NamesDiffer(fields, i, j);
      OpenTagsExclusive(fields[i].name, n, rest);
    }
  }

  lemma NamesDiffer(fields: seq<Field>, i: nat, j: nat)
    requires WellFormed(fields) && i < j < |fields|
    ensures fields[i].name != fields[j].name && Identifier(fields[i].name) && Identifier(fields[j].name)
  {
    assert Names(fields)[i] != Names(fields)[j];
  }

  /** A chunk that matches no property leaves the instance as it was, and so
      does every chunk that matches another property than `j`: property `j`
      keeps its value, a default one if it had no chunk at all. */
  lemma {:induction false} UnmatchedKeepsValue(fields: seq<Field>, values: seq<Value>, chunks: seq<string>, j: nat)
    requires |values| == |fields| && j < |fields|
    requires forall i :: 0 <= i < |chunks| ==> MatchField(fields, chunks[i]) != Some(j)
    requires ApplyChunks(fields, values, chunks).Ok?
    ensures ApplyChunks(fields, values, chunks).value[j] == values[j]
    decreases |chunks|
  {
    if chunks != [] {
      var init := chunks[..|chunks| - 1];
      assert forall i :: 0 <= i < |init| ==> init[i] == chunks[i];
      UnmatchedKeepsValue(fields, values, init, j);
    }
  }

  /** A property holds the value of the last chunk that matched it. */
  lemma {:induction false} LastMatchWins(fields: seq<Field>, values: seq<Value>, chunks: seq<string>, n: nat, j: nat)
    requires |values| == |fields| && n < |chunks|
    requires MatchField(fields, chunks[n]) == Some(j)
    requires forall i :: n < i < |chunks| ==> MatchField(fields, chunks[i]) != Some(j)
    requires ApplyChunks(fields, values, chunks).Ok?
    ensures ReadField(fields[j], chunks[n]).Ok?
    ensures ApplyChunks(fields, values, chunks).value[j] == ReadField(fields[j], chunks[n]).value
    decreases |chunks|
  {
    var init := chunks[..|chunks| - 1];
    assert forall i :: 0 <= i < |init| ==> init[i] == chunks[i];
    if n < |chunks| - 1 {
      LastMatchWins(fields, values, init, n, j);
    }
  }

  /** A chunk whose text does not parse as its property's type makes the whole
      decoding fail. */
  lemma UnparsableFails(fields: seq<Field>, values: seq<Value>, chunks: seq<string>, n: nat, j: nat)
    requires |values| == |fields| && n < |chunks|
    requires MatchField(fields, chunks[n]) == Some(j)
    requires ReadField(fields[j], chunks[n]).Err?
    ensures ApplyChunks(fields, values, chunks).Err?
  {
    assert chunks[..n + 1][..n] == chunks[..n];
    assert ApplyChunks(fields, values, chunks[..n + 1]).Err?;
    ApplyErrorPersists(fields, values, chunks, n + 1);
  }

  // ---------------------------------------------------------------------------
  // Round trip

  /** Decoding the key chunk and the chunks of the properties before `i` fills
      exactly those properties with the record's values. */
  lemma {:induction false} DecodeUpTo(fields: seq<Field>, keyName: string, values: seq<Value>, i: nat)
    requires Encodable(fields, keyName, values) && i <= |fields|
    ensures NonKeyChunks(fields, keyName, values, i).Ok?
    ensures var k := IndexOfName(fields, keyName).value;
      ApplyChunks(fields, Defaults(fields),
        [Chunk(keyName, KeyText(fields, keyName, values).value)] + NonKeyChunks(fields, keyName, values, i).value)
      == Ok(Filled(fields, values, k, i))
  {
    var k := IndexOfName(fields, keyName).value;
    var head := Chunk(keyName, KeyText(fields, keyName, values).value);
    if i == 0 {
      DecodeKey(fields, keyName, values);
    } else {
      var j := i - 1;
      DecodeUpTo(fields, keyName, values, j);
      assert Storable(fields[j], values[j]);
      DecodeStep(fields, keyName, values, j, k, head, NonKeyChunks(fields, keyName, values, j).value);
      assert j + 1 == i;
    }
  }

  /** The key chunk alone fills the key property. */
  lemma DecodeKey(fields: seq<Field>, keyName: string, values: seq<Value>)
    requires Encodable(fields, keyName, values)
    ensures var k := IndexOfName(fields, keyName).value;
      ApplyChunks(fields, Defaults(fields), [Chunk(keyName, KeyText(fields, keyName, values).value)])
      == Ok(Filled(fields, values, k, 0))
  {
    var k := IndexOfName(fields, keyName).value;
    KeyChunkAsField(fields, keyName, values);
    var head := Chunk(keyName, KeyText(fields, keyName, values).value);
    ApplyOwnChunk(fields, Defaults(fields), k, values[k]);
    ApplySnoc(fields, Defaults(fields), [], head, Defaults(fields));
    FilledFirst(fields, values, k);
  }

  /** The chunk of property `j`, if it is not the key, fills it. */
  lemma DecodeStep(fields: seq<Field>, keyName: string, values: seq<Value>, j: nat, k: nat,
                   head: string, before: seq<string>)
    requires WellFormed(fields) && |values| == |fields| && j < |fields|
    requires Storable(fields[j], values[j])
    requires IndexOfName(fields, keyName) == Some(k)
    requires NonKeyChunks(fields, keyName, values, j) == Ok(before)
    requires ApplyChunks(fields, Defaults(fields), [head] + before) == Ok(Filled(fields, values, k, j))
    ensures NonKeyChunks(fields, keyName, values, j + 1).Ok?
    ensures ApplyChunks(fields, Defaults(fields), [head] + NonKeyChunks(fields, keyName, values, j + 1).value)
      == Ok(Filled(fields, values, k, j + 1))
  {
    if fields[j].name == keyName {
      SameNameSameIndex(fields, j, k);
      KeyChunkSkipped(fields, keyName, values, j, before);
      FilledNext(fields, values, k, j);
    } else {
      NonKeyStep(fields, keyName, values, j, k, head, before);
    }
  }

  /** The chunk of a non-key property `j` is added and fills it. */
  lemma NonKeyStep(fields: seq<Field>, keyName: string, values: seq<Value>, j: nat, k: nat,
                   head: string, before: seq<string>)
    requires WellFormed(fields) && |values| == |fields| && j < |fields| && k < |fields|
    requires fields[j].name != keyName
    requires Storable(fields[j], values[j])
    requires NonKeyChunks(fields, keyName, values, j) == Ok(before)
    requires ApplyChunks(fields, Defaults(fields), [head] + before) == Ok(Filled(fields, values, k, j))
    ensures NonKeyChunks(fields, keyName, values, j + 1).Ok?
    ensures ApplyChunks(fields, Defaults(fields), [head] + NonKeyChunks(fields, keyName, values, j + 1).value)
      == Ok(Filled(fields, values, k, j + 1))
  {
    DecodeNonKey(fields, Filled(fields, values, k, j), j, values[j], head, before);
    FilledNext(fields, values, k, j);
    NonKeyChunkAdded(fields, keyName, values, j, before);
  }

  /** A storable non-key property adds its chunk. */
  lemma NonKeyChunkAdded(fields: seq<Field>, keyName: string, values: seq<Value>, j: nat, before: seq<string>)
    requires |values| == |fields| && j < |fields| && fields[j].name != keyName
    requires !values[j].NullV?
    requires NonKeyChunks(fields, keyName, values, j) == Ok(before)
    ensures NonKeyChunks(fields, keyName, values, j + 1)
      == Ok(before + [Chunk(fields[j].name, FieldText(fields[j], values[j]).value)])
  {
  }

  /** Two properties with the same name are the same property. */
  lemma SameNameSameIndex(fields: seq<Field>, i: nat, j: nat)
    requires WellFormed(fields) && i < |fields| && j < |fields| && fields[i].name == fields[j].name
    ensures i == j
  {
    assert Names(fields)[i] == Names(fields)[j];
  }

  /** Decoding one more chunk, that of property `j` holding `v`, sets `j`. */
  lemma DecodeNonKey(fields: seq<Field>, w: seq<Value>, j: nat, v: Value, head: string, before: seq<string>)
    requires WellFormed(fields) && |w| == |fields| && j < |fields| && Storable(fields[j], v)
    requires ApplyChunks(fields, Defaults(fields), [head] + before) == Ok(w)
    ensures ApplyChunks(fields, Defaults(fields), [head] + (before + [Chunk(fields[j].name, FieldText(fields[j], v).value)]))
      == Ok(w[j := v])
  {
    var c := Chunk(fields[j].name, FieldText(fields[j], v).value);
    assert [head] + (before + [c]) == ([head] + before) + [c];
    ApplySnoc(fields, Defaults(fields), [head] + before, c, w);
    ApplyOwnChunk(fields, w, j, v);
  }

  /** The key chunk decoded into a fresh instance gives the first stage. */
  lemma FilledFirst(fields: seq<Field>, values: seq<Value>, k: nat)
    requires |values| == |fields| && k < |fields|
    ensures Defaults(fields)[k := values[k]] == Filled(fields, values, k, 0)
  {
  }

  /** Property `i` set to its value passes to the next stage; the key property
      already holds its value. */
  lemma FilledNext(fields: seq<Field>, values: seq<Value>, k: nat, i: nat)
    requires |values| == |fields| && k < |fields| && i < |fields|
    ensures Filled(fields, values, k, i)[i := values[i]] == Filled(fields, values, k, i + 1)
    ensures i == k ==> Filled(fields, values, k, i) == Filled(fields, values, k, i + 1)
  {
  }

  /** One more chunk after chunks that decode to `w`. */
  lemma ApplySnoc(fields: seq<Field>, values: seq<Value>, chunks: seq<string>, c: string, w: seq<Value>)
    requires |values| == |fields| && ApplyChunks(fields, values, chunks) == Ok(w)
    ensures ApplyChunks(fields, values, chunks + [c]) == ApplyChunk(fields, w, c)
  {
    assert (chunks + [c])[..|chunks|] == chunks;
  }

  /** A chunk of property `j`, written from a storable value, sets `j` to it. */
  lemma ApplyOwnChunk(fields: seq<Field>, values: seq<Value>, j: nat, v: Value)
    requires WellFormed(fields) && |values| == |fields| && j < |fields| && Storable(fields[j], v)
    ensures ApplyChunk(fields, values, Chunk(fields[j].name, FieldText(fields[j], v).value)) == Ok(values[j := v])
  {
    MatchOwnChunk(fields, j, FieldText(fields[j], v).value);
    ReadFieldRoundTrip(fields[j], v);
  }

  /** No chunk of a record of storable values holds the separator. */
  lemma {:induction false} ChunksSplittable(fields: seq<Field>, keyName: string, values: seq<Value>, i: nat)
    requires i <= |fields| && |values| == |fields|
    requires forall j :: 0 <= j < |fields| ==> Storable(fields[j], values[j])
    requires NonKeyChunks(fields, keyName, values, i).Ok?
    ensures forall x :: x in NonKeyChunks(fields, keyName, values, i).value ==> !Contains(x, Sep)
  {
    if i > 0 {
      ChunksSplittable(fields, keyName, values, i - 1);
      if fields[i - 1].name != keyName {
        FieldTextClean(fields[i - 1], values[i - 1]);
        ChunkSep(fields[i - 1].name, FieldText(fields[i - 1], values[i - 1]).value);
      }
    }
  }

  /** A line made of chunks that hold no separator splits back into them. */
  lemma SplitChunks(head: string, chunks: seq<string>)
    requires !Contains(head, Sep) && head != [] && head[|head| - 1] == '>'
    requires forall x :: x in chunks ==> !Contains(x, Sep) && x != [] && x[|x| - 1] == '>'
    ensures Split(Join([head] + chunks, Sep), Sep) == [head] + chunks
  {
    SepToken();
    SplitJoin([head] + chunks, Sep);
  }

  /** Decoding the line Append writes for a record gives the record back: every
      int, bool, enum and string property is restored. */
  lemma RoundTrip(fields: seq<Field>, keyName: string, values: seq<Value>)
    requires Encodable(fields, keyName, values)
    ensures EncodeForAppend(fields, keyName, values).Ok?
    ensures Decode(fields, EncodeForAppend(fields, keyName, values).value) == Ok(values)
  {
    var k := IndexOfName(fields, keyName).value;
    KeyChunkAsField(fields, keyName, values);
    DecodeUpTo(fields, keyName, values, |fields|);
    var key := KeyText(fields, keyName, values).value;
    var chunks := NonKeyChunks(fields, keyName, values, |fields|).value;
    FieldTextClean(fields[k], values[k]);
    ChunkSep(keyName, key);
    ChunkEnds(keyName, key);
    ChunksSplittable(fields, keyName, values, |fields|);
    ChunksEndWithTag(fields, keyName, values, |fields|);
    SplitChunks(Chunk(keyName, key), chunks);
    assert Filled(fields, values, k, |fields|) == values;
  }
}
