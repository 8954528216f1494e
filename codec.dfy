/** The record codec: one record becomes one line of tagged chunks
    (`<db.Key>k</db.Key><db.br/><db.F>v</db.F><db.br/>...`), and a line is
    decoded by splitting it at `<db.br/>` and giving each chunk to the first
    property whose open tag it starts with. */
module Codec {

  import opened Wrappers
  import opened Text
  import opened Records

  // ---------------------------------------------------------------------------
  // Encoding

  /** The chunks of the non-key properties among `fields[..i]`, in declaration
      order, or the error of the first of them whose value cannot be rendered. */
  function NonKeyChunks(fields: seq<Field>, keyName: string, values: seq<Value>, i: nat): Result<seq<string>, Error>
    requires i <= |fields| && |values| == |fields|
  {
    if i == 0 then Ok([])
    else
      var done :- NonKeyChunks(fields, keyName, values, i - 1);
      if fields[i - 1].name == keyName then Ok(done)
      else
        var text :- FieldText(fields[i - 1], values[i - 1]);
        Ok(done + [Chunk(fields[i - 1].name, text)])
  }

  /** The line of a record whose key property renders as `keyText`: the key
      chunk, then the non-key chunks in declaration order, with `Sep` between
      each two and none at the end. The key text is written as it is. */
  function EncodeLine(fields: seq<Field>, keyName: string, keyText: string, values: seq<Value>): Result<string, Error>
    requires |values| == |fields|
  {
    var chunks :- NonKeyChunks(fields, keyName, values, |fields|);
    Ok(Join([Chunk(keyName, keyText)] + chunks, Sep))
  }

  /** The key property's value rendered, as `GetProperty(KeyName).GetValue(model).ToString()`. */
  function KeyText(fields: seq<Field>, keyName: string, values: seq<Value>): Result<string, Error>
    requires |values| == |fields|
  {
    match IndexOfName(fields, keyName)
    case None => Err(NoSuchProperty)
    case Some(k) => Render(fields[k].kind, values[k])
  }

  /** What Append writes for one record: the encoded line, unless the key's text
      contains "\n". */
  function EncodeForAppend(fields: seq<Field>, keyName: string, values: seq<Value>): (r: Result<string, Error>)
    requires |values| == |fields|
    ensures r.Ok? ==> KeyText(fields, keyName, values).Ok? && '\n' !in KeyText(fields, keyName, values).value
  {
    var key :- KeyText(fields, keyName, values);
    if '\n' in key then Err(NewlineInKey) else EncodeLine(fields, keyName, key, values)
  }

  /** Append's encoding of one record: the key property looked up and rendered,
      a key with "\n" refused, then the line built by the encoding loop. It is
      the imperative steps of the source, tied to `EncodeForAppend`, the
      function the laws are stated about. */
  method EncodeAppended(fields: seq<Field>, keyName: string, values: seq<Value>)
    returns (r: Result<string, Error>)
    requires |values| == |fields|
    ensures r == EncodeForAppend(fields, keyName, values)
  {
    var k := IndexOfName(fields, keyName);
    if k.None? {
      return Err(NoSuchProperty);
    }
    var key := Render(fields[k.value].kind, values[k.value]);
    if key.Err? {
      return Err(key.error);
    }
    if '\n' in key.value {
      return Err(NewlineInKey);
    }
    r := EncodeRecord(fields, keyName, key.value, values);
  }

  /** The encoding loop of Append and Update: `str` grows by one
      `<db.F>value</db.F><db.br/>` per non-key property, and the last separator
      is cut out with `str.Remove(str.Length - 9, 8)`. */
  method EncodeRecord(fields: seq<Field>, keyName: string, keyText: string, values: seq<Value>)
    returns (r: Result<string, Error>)
    requires |values| == |fields|
    ensures r == EncodeLine(fields, keyName, keyText, values)
  {
    var str := Open(keyName) + keyText + Close(keyName) + Sep;
    ghost var chunks: seq<string> := [];
    var i := 0;
    while i < |fields|
      invariant 0 <= i <= |fields|
      invariant NonKeyChunks(fields, keyName, values, i) == Ok(chunks)
      invariant str == Terminated(Chunk(keyName, keyText), chunks)
    {
      if fields[i].name == keyName {
        KeyChunkSkipped(fields, keyName, values, i, chunks);
      } else {
        var rendered := Render(fields[i].kind, values[i]);
        if rendered.Err? {
          EncodeFails(fields, keyName, keyText, values, i, chunks);
          return Err(rendered.error);
        }
        var value := if fields[i].kind.StrKind? then Replace(rendered.value, "\n", Break) else rendered.value;
        EncodeStep(fields, keyName, values, i, chunks, value);
        TerminatedSnoc(Chunk(keyName, keyText), chunks, Chunk(fields[i].name, value));
        str := str + Chunk(fields[i].name, value) + Sep;  // "<db.F>value</db.F><db.br/>"
        chunks := chunks + [Chunk(fields[i].name, value)];
      }
      i := i + 1;
    }
    FinishLine(fields, keyName, keyText, values, chunks);
    if EndsWith(str, Sep) {
      str := RemoveRange(str, |str| - 9, 8);
    }
    return Ok(str);
  }

  /** The text of the encoding loop: each chunk followed by a separator. */
  function Terminated(head: string, chunks: seq<string>): string
    decreases |chunks|
  {
    if chunks == [] then head + Sep
    else Terminated(head, chunks[..|chunks| - 1]) + chunks[|chunks| - 1] + Sep
  }

  /** The key property adds no chunk of its own. */
  lemma KeyChunkSkipped(fields: seq<Field>, keyName: string, values: seq<Value>, j: nat, before: seq<string>)
    requires |values| == |fields| && j < |fields| && fields[j].name == keyName
    requires NonKeyChunks(fields, keyName, values, j) == Ok(before)
    ensures NonKeyChunks(fields, keyName, values, j + 1) == Ok(before)
  {
  }

  /** A non-key value that does not render fails the whole line with its error. */
  lemma EncodeFails(fields: seq<Field>, keyName: string, keyText: string, values: seq<Value>, j: nat, before: seq<string>)
    requires |values| == |fields| && j < |fields| && fields[j].name != keyName
    requires NonKeyChunks(fields, keyName, values, j) == Ok(before)
    requires Render(fields[j].kind, values[j]).Err?
    ensures EncodeLine(fields, keyName, keyText, values) == Err(Render(fields[j].kind, values[j]).error)
  {
    assert NonKeyChunks(fields, keyName, values, j + 1) == Err(Render(fields[j].kind, values[j]).error);
    ChunksErrorPersists(fields, keyName, values, j + 1, |fields|);
  }

  /** One more chunk and separator at the end of the loop text. */
  lemma TerminatedSnoc(head: string, chunks: seq<string>, c: string)
    ensures Terminated(head, chunks + [c]) == Terminated(head, chunks) + c + Sep
  {
    assert (chunks + [c])[..|chunks|] == chunks;
  }

  /** The loop text is the joined chunks and one more separator. */
  lemma {:induction false} TerminatedIsJoin(head: string, chunks: seq<string>)
    ensures Terminated(head, chunks) == Join([head] + chunks, Sep) + Sep
    decreases |chunks|
  {
    if chunks != [] {
      var init, last := chunks[..|chunks| - 1], chunks[|chunks| - 1];
      TerminatedIsJoin(head, init);
      JoinSnoc([head] + init, last, Sep);
      assert [head] + chunks == [head] + init + [last];
    }
  }

  /** After the loop the text ends with the separator, and cutting it out leaves the encoded line. */
  lemma FinishLine(fields: seq<Field>, keyName: string, keyText: string, values: seq<Value>, chunks: seq<string>)
    requires |values| == |fields|
    requires NonKeyChunks(fields, keyName, values, |fields|) == Ok(chunks)
    ensures var s := Terminated(Chunk(keyName, keyText), chunks);
      EndsWith(s, Sep) && |s| >= 9 && Ok(RemoveRange(s, |s| - 9, 8)) == EncodeLine(fields, keyName, keyText, values)
  {
    var head := Chunk(keyName, keyText);
    var line := Join([head] + chunks, Sep);
    TerminatedIsJoin(head, chunks);
    ChunksEndWithTag(fields, keyName, values, |fields|);
    ChunkEnds(keyName, keyText);
    JoinEndsWith([head] + chunks, Sep);
    DropLastSeparator(line);
    assert (line + Sep)[|line + Sep| - |Sep|..] == Sep;
  }

  /** Every chunk ends with its close tag's '>'. */
  lemma {:induction false} ChunksEndWithTag(fields: seq<Field>, keyName: string, values: seq<Value>, i: nat)
    requires i <= |fields| && |values| == |fields| && NonKeyChunks(fields, keyName, values, i).Ok?
    ensures forall c :: c in NonKeyChunks(fields, keyName, values, i).value ==> c != [] && c[|c| - 1] == '>'
  {
    if i > 0 {
      var j := i - 1;
      assert i == j + 1;
      ChunksEndWithTag(fields, keyName, values, j);
      ChunkEndsStep(fields, keyName, values, j);
    }
  }

  /** The step of ChunksEndWithTag: the chunk of property `j` ends with '>' too. */
  lemma ChunkEndsStep(fields: seq<Field>, keyName: string, values: seq<Value>, j: nat)
    requires j < |fields| && |values| == |fields| && NonKeyChunks(fields, keyName, values, j + 1).Ok?
    requires forall c :: c in NonKeyChunks(fields, keyName, values, j).value ==> c != [] && c[|c| - 1] == '>'
    ensures forall c :: c in NonKeyChunks(fields, keyName, values, j + 1).value ==> c != [] && c[|c| - 1] == '>'
  {
    if fields[j].name != keyName {
      ChunkEnds(fields[j].name, FieldText(fields[j], values[j]).value);
    }
  }

  /** One turn of the encoding loop adds the chunk of property `i`. */
  lemma EncodeStep(fields: seq<Field>, keyName: string, values: seq<Value>,
                   i: nat, chunks: seq<string>, value: string)
    requires i < |fields| && |values| == |fields| && fields[i].name != keyName
    requires NonKeyChunks(fields, keyName, values, i) == Ok(chunks)
    requires Render(fields[i].kind, values[i]).Ok?
    requires value == if fields[i].kind.StrKind? then Replace(Render(fields[i].kind, values[i]).value, "\n", Break)
                      else Render(fields[i].kind, values[i]).value
    ensures NonKeyChunks(fields, keyName, values, i + 1) == Ok(chunks + [Chunk(fields[i].name, value)])
  {
  }

  /** Once a property fails to render, the whole encoding fails with that error. */
  lemma {:induction false} ChunksErrorPersists(fields: seq<Field>, keyName: string, values: seq<Value>, i: nat, j: nat)
    requires i <= j <= |fields| && |values| == |fields|
    requires NonKeyChunks(fields, keyName, values, i).Err?
    ensures NonKeyChunks(fields, keyName, values, j) == NonKeyChunks(fields, keyName, values, i)
    decreases j - i
  {
    if i < j {
      ChunksErrorPersists(fields, keyName, values, i + 1, j);
    }
  }

  /** A join of pieces whose last one ends with '>' ends with '>'. */
  lemma {:induction false} JoinEndsWith(pieces: seq<string>, sep: string)
    requires pieces != [] && forall c :: c in pieces ==> c != [] && c[|c| - 1] == '>'
    ensures var s := Join(pieces, sep); s != [] && s[|s| - 1] == '>'
    decreases |pieces|
  {
    if |pieces| > 1 {
      assert forall c :: c in pieces[1..] ==> c in pieces;
      JoinEndsWith(pieces[1..], sep);
    }
  }

  /** `str.Remove(str.Length - 9, 8)` on a string that ends with ">" and the
      separator drops exactly the separator: what it cuts out is the '>' before
      the separator and the separator's first seven characters, and the '>' it
      keeps at the end is the same character. */
  lemma DropLastSeparator(line: string)
    requires line != [] && line[|line| - 1] == '>'
    ensures RemoveRange(line + Sep, |line + Sep| - 9, 8) == line
  {
    var s := line + Sep;
    var r := RemoveRange(s, |s| - 9, 8);
    assert r == s[..|s| - 9] + s[|s| - 1..];
    assert s[..|s| - 9] == line[..|line| - 1];
    assert s[|s| - 1..] == [line[|line| - 1]];
    assert line == line[..|line| - 1] + [line[|line| - 1]];
  }

  // ---------------------------------------------------------------------------
  // Decoding

  /** The first property whose open tag the chunk starts with. */
  function MatchField(fields: seq<Field>, chunk: string): (r: Option<nat>)
    ensures r.Some? ==> r.value < |fields| && StartsWith(chunk, Open(fields[r.value].name))
    ensures r.Some? ==> forall j :: 0 <= j < r.value ==> !StartsWith(chunk, Open(fields[j].name))
    ensures r.None? ==> forall j :: 0 <= j < |fields| ==> !StartsWith(chunk, Open(fields[j].name))
  {
    if fields == [] then None
    else if StartsWith(chunk, Open(fields[0].name)) then Some(0)
    else match MatchField(fields[1..], chunk)
      case None => None
      case Some(j) => Some(j + 1)
  }

  /** One chunk applied to the instance being filled: it sets the property it
      matches, and a chunk that matches none is ignored. */
  function ApplyChunk(fields: seq<Field>, values: seq<Value>, chunk: string): (r: Result<seq<Value>, Error>)
    requires |values| == |fields|
    ensures r.Ok? ==> |r.value| == |fields|
  {
    match MatchField(fields, chunk)
    case None => Ok(values)
    case Some(j) =>
      var v :- ReadField(fields[j], chunk);
      Ok(values[j := v])
  }

  /** The chunks applied in order; the first error stops the decoding. */
  function ApplyChunks(fields: seq<Field>, values: seq<Value>, chunks: seq<string>): (r: Result<seq<Value>, Error>)
    requires |values| == |fields|
    ensures r.Ok? ==> |r.value| == |fields|
    decreases |chunks|
  {
    if chunks == [] then Ok(values)
    else
      var before :- ApplyChunks(fields, values, chunks[..|chunks| - 1]);
      ApplyChunk(fields, before, chunks[|chunks| - 1])
  }

  /** A line decoded into a freshly created instance. */
  function Decode(fields: seq<Field>, line: string): (r: Result<seq<Value>, Error>)
    ensures r.Ok? ==> |r.value| == |fields|
  {
    ApplyChunks(fields, Defaults(fields), Split(line, Sep))
  }

  /** The decoding loops of Get() and Get(key): for each chunk, the properties
      in declaration order until one's open tag matches, then `SetValue`. */
  method DecodeRecord(fields: seq<Field>, line: string) returns (r: Result<seq<Value>, Error>)
    ensures r == Decode(fields, line)
  {
    var instance := Defaults(fields);
    var chunks := Split(line, Sep);
    var i := 0;
    while i < |chunks|
      invariant 0 <= i <= |chunks|
      invariant |instance| == |fields|
      invariant ApplyChunks(fields, Defaults(fields), chunks[..i]) == Ok(instance)
    {
      var chunk := chunks[i];
      ApplyNext(fields, Defaults(fields), chunks, i, instance);
      var m := FindField(fields, chunk);
      if m.Some? {
        var v := ReadField(fields[m.value], chunk);
        if v.Err? {
          ApplyErrorPersists(fields, Defaults(fields), chunks, i + 1);
          return Err(v.error);
        }
        instance := instance[m.value := v.value];
      }
      i := i + 1;
    }
    assert chunks[..|chunks|] == chunks;
    return Ok(instance);
  }

  /** The inner loop of the decoding: the properties in declaration order until
      one's open tag starts the chunk. */
  method FindField(fields: seq<Field>, chunk: string) returns (r: Option<nat>)
    ensures r == MatchField(fields, chunk)
  {
    var j := 0;
    while j < |fields|
      invariant 0 <= j <= |fields|
      invariant forall j' :: 0 <= j' < j ==> !StartsWith(chunk, Open(fields[j'].name))
    {
      if StartsWith(chunk, Open(fields[j].name)) {
        return Some(j);
      }
      j := j + 1;
    }
    return None;
  }

  /** One more chunk applied after a prefix that decoded to `w`. */
  lemma ApplyNext(fields: seq<Field>, values: seq<Value>, chunks: seq<string>, i: nat, w: seq<Value>)
    requires |values| == |fields| && i < |chunks| && |w| == |fields|
    requires ApplyChunks(fields, values, chunks[..i]) == Ok(w)
    ensures ApplyChunks(fields, values, chunks[..i + 1]) == ApplyChunk(fields, w, chunks[i])
  {
    assert chunks[..i + 1][..i] == chunks[..i];
  }

  /** A decoding error in a prefix of the chunks is the error of the whole line. */
  lemma {:induction false} ApplyErrorPersists(fields: seq<Field>, values: seq<Value>, chunks: seq<string>, i: nat)
    requires |values| == |fields| && i <= |chunks|
    requires ApplyChunks(fields, values, chunks[..i]).Err?
    ensures ApplyChunks(fields, values, chunks) == ApplyChunks(fields, values, chunks[..i])
    decreases |chunks| - i
  {
    if i < |chunks| {
      assert chunks[..i + 1][..i] == chunks[..i];
      ApplyErrorPersists(fields, values, chunks, i + 1);
    } else {
      assert chunks[..i] == chunks;
    }
  }
}
