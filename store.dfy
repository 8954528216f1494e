/** The store: a `DbContext` bound to one record type and one file, which it
    treats as a sequence of lines, one encoded record per line. Each operation
    is a method on the class; the sequence of lines it leaves behind and what
    it returns are given by the functions in the first half of this module. */
module Store {

  import opened Wrappers
  import opened Text
  import opened Records
  import opened Codec

  /** What `SetConfig(filepath, keyname)` records. */
  datatype Config = Config(filePath: string, keyName: string)

  /** The constructor's checks on what `Configuration()` set up: `None` when it
      never called `SetConfig`, which leaves the model type null. */
  function CheckConfig(config: Option<Config>): (r: Result<Config, Error>)
    ensures r.Ok? <==> config.Some? && config.value.filePath != [] && config.value.keyName != []
    ensures r.Ok? ==> r.value == config.value
    ensures r.Err? ==> r.error == ConfigurationError
  {
    match config
    case None => Err(ConfigurationError)
    case Some(c) => if c.keyName == [] || c.filePath == [] then Err(ConfigurationError) else Ok(c)
  }

  /** A record passed to the store: null, or an instance of a runtime type with
      the values of the configured type's properties. */
  datatype Model = Null | Instance(typeName: string, values: seq<Value>)

  /** What the C# type system guarantees of a `TModel`: an instance has a value
      of the right type for each property of the configured type. */
  predicate Conforms(fields: seq<Field>, m: Model) {
    Sized(fields, m) && (m.Instance? ==> WellTypedRecord(fields, m.values))
  }

  /** The part of `Conforms` the encoder relies on: one value per property. */
  predicate Sized(fields: seq<Field>, m: Model) {
    m.Instance? ==> |m.values| == |fields|
  }

  // ---------------------------------------------------------------------------
  // Batch append

  /** The line the batch loop writes for one element of the list: a null
      element fails when its key property is read. */
  function BatchRecord(fields: seq<Field>, keyName: string, m: Model): Result<string, Error>
    requires Sized(fields, m)
  {
    match m
    case Null => if IndexOfName(fields, keyName).None? then Err(NoSuchProperty) else Err(NoTarget)
    case Instance(_, values) => EncodeForAppend(fields, keyName, values)
  }

  /** What the batch loop does with each element of the list. */
  function Outcomes(fields: seq<Field>, keyName: string, models: seq<Model>): (r: seq<Result<string, Error>>)
    requires forall i :: 0 <= i < |models| ==> Sized(fields, models[i])
    ensures |r| == |models| && forall i :: 0 <= i < |models| ==> r[i] == BatchRecord(fields, keyName, models[i])
    decreases |models|
  {
    if models == [] then []
    else Outcomes(fields, keyName, models[..|models| - 1]) + [BatchRecord(fields, keyName, models[|models| - 1])]
  }

  /** The lines the batch loop has written after the first `n` elements, given
      what it does with each, and the error that stopped it, if any: an element
      that fails leaves what the elements before it wrote. */
  function Batch(outcomes: seq<Result<string, Error>>, n: nat): (r: (seq<string>, Option<Error>))
    requires n <= |outcomes|
    ensures forall i :: 0 <= i < |r.0| ==> BreakFree(r.0[i])
    decreases n
  {
    if n == 0 then ([], None)
    else
      var (written, failure) := Batch(outcomes, n - 1);
      if failure.Some? then (written, failure)
      else match outcomes[n - 1]
        case Err(e) => (written, Some(e))
        case Ok(line) => (written + WrittenLines(line), None)
  }

  /** What the batch append writes for the whole list, and the error that
      stopped it, if any. */
  function BatchOf(fields: seq<Field>, keyName: string, models: seq<Model>): (seq<string>, Option<Error>)
    requires forall i :: 0 <= i < |models| ==> Conforms(fields, models[i])
  {
    ConformsSized(fields, models);
    Batch(Outcomes(fields, keyName, models), |models|)
  }

  lemma ConformsSized(fields: seq<Field>, models: seq<Model>)
    requires forall i :: 0 <= i < |models| ==> Conforms(fields, models[i])
    ensures forall i :: 0 <= i < |models| ==> Sized(fields, models[i])
  {
    forall i | 0 <= i < |models| ensures Sized(fields, models[i]) {
      assert Conforms(fields, models[i]);
    }
  }

  /** The type test of the batch append: it looks at the last element only. */
  predicate LastFits(models: seq<Model>, modelType: string)
    requires models != []
  {
    models[|models| - 1].Instance? && models[|models| - 1].typeName == modelType
  }

  // ---------------------------------------------------------------------------
  // Reading

  /** Every line decoded into a fresh instance, in file order; the first line
      that fails to decode makes the whole read fail. */
  function DecodeAll(fields: seq<Field>, lines: seq<string>): (r: Result<seq<seq<Value>>, Error>)
    ensures r.Ok? ==> |r.value| == |lines|
    decreases |lines|
  {
    if lines == [] then Ok([])
    else
      var before :- DecodeAll(fields, lines[..|lines| - 1]);
      var record :- Decode(fields, lines[|lines| - 1]);
      Ok(before + [record])
  }

  /** The prefix `<db.K>key</db.K>` that `Get(key)` looks for: the key argument
      converted to the key property's type (which fails for string keys, since
      `Activator.CreateInstance` has no string to create) and rendered. */
  function KeyPrefix(fields: seq<Field>, keyName: string, key: Value): (r: Result<string, Error>)
    ensures r.Ok? ==> IndexOfName(fields, keyName).Some?
    ensures r.Ok? ==> var k := IndexOfName(fields, keyName).value;
      !fields[k].kind.StrKind? && WellTyped(fields[k].kind, key) &&
      r.value == Chunk(keyName, Render(fields[k].kind, key).value)
  {
    match IndexOfName(fields, keyName)
    case None => Err(NoSuchProperty)
    case Some(k) =>
      if fields[k].kind.StrKind? then Err(NoParameterlessConstructor)
      else if !WellTyped(fields[k].kind, key) then Err(InvalidCast)
      else Ok(Chunk(keyName, Render(fields[k].kind, key).value))
  }

  /** The first line that starts with `prefix`. */
  function FirstStarting(lines: seq<string>, prefix: string): (r: Option<nat>)
    ensures r.Some? ==> r.value < |lines| && StartsWith(lines[r.value], prefix)
    ensures r.Some? ==> forall i :: 0 <= i < r.value ==> !StartsWith(lines[i], prefix)
    ensures r.None? ==> forall i :: 0 <= i < |lines| ==> !StartsWith(lines[i], prefix)
    decreases |lines|
  {
    if lines == [] then None
    else if StartsWith(lines[0], prefix) then Some(0)
    else match FirstStarting(lines[1..], prefix)
      case None => None
      case Some(i) => Some(i + 1)
  }

  /** The reading loop of `Get(key)`: lines in file order until one starts
      with the prefix. */
  method FindLine(lines: seq<string>, prefix: string) returns (r: Option<nat>)
    ensures r == FirstStarting(lines, prefix)
  {
    var i := 0;
    while i < |lines|
      invariant 0 <= i <= |lines|
      invariant forall j :: 0 <= j < i ==> !StartsWith(lines[j], prefix)
    {
      if StartsWith(lines[i], prefix) {
        return Some(i);
      }
      i := i + 1;
    }
    return None;
  }

  /** What `Get(key)` returns: the first line with the key's prefix decoded, or a
      fresh instance when there is no file or no such line. */
  function Lookup(fields: seq<Field>, keyName: string, fileExists: bool, lines: seq<string>, key: Value): Result<seq<Value>, Error>
  {
    var prefix :- KeyPrefix(fields, keyName, key);
    if !fileExists then Ok(Defaults(fields))
    else match FirstStarting(lines, prefix)
      case None => Ok(Defaults(fields))
      case Some(i) => Decode(fields, lines[i])
  }

  // ---------------------------------------------------------------------------
  // Rewriting

  /** Update's copy of the file: lines with the key's prefix replaced by the
      record's fresh encoding, the others copied. The encoding is only computed
      when a line matches, so it fails only then. */
  function UpdatedLines(lines: seq<string>, prefix: string, encoded: Result<string, Error>): (r: Result<seq<string>, Error>)
    ensures r.Ok? ==> forall i :: 0 <= i < |r.value| ==> BreakFree(r.value[i]) || r.value[i] in lines
    ensures r.Err? ==> encoded.Err? && r.error == encoded.error
    decreases |lines|
  {
    if lines == [] then Ok([])
    else
      var done :- UpdatedLines(lines[..|lines| - 1], prefix, encoded);
      var line := lines[|lines| - 1];
      if !StartsWith(line, prefix) then Ok(done + [line])
      else
        var written :- encoded;
        Ok(done + WrittenLines(written))
  }

  /** Remove's copy of the file: the lines without `prefix`, in order. */
  function Kept(lines: seq<string>, prefix: string): (r: seq<string>)
    ensures |r| <= |lines|
    ensures forall i :: 0 <= i < |r| ==> !StartsWith(r[i], prefix) && r[i] in lines
    decreases |lines|
  {
    if lines == [] then []
    else
      var done := Kept(lines[..|lines| - 1], prefix);
      var line := lines[|lines| - 1];
      if StartsWith(line, prefix) then done else done + [line]
  }

  /** The prefix `Remove` filters on, as written: built from a freshly created
      value of the key's type (0, False, the enum's zero), whatever the
      argument. */
  function DefaultKeyPrefix(fields: seq<Field>, keyName: string): (r: Result<string, Error>)
    ensures r.Ok? ==> IndexOfName(fields, keyName).Some?
    ensures r.Ok? ==> var k := IndexOfName(fields, keyName).value;
      !fields[k].kind.StrKind? && r == KeyPrefix(fields, keyName, Default(fields[k].kind))
  {
    match IndexOfName(fields, keyName)
    case None => Err(NoSuchProperty)
    case Some(k) =>
      if fields[k].kind.StrKind? then Err(NoParameterlessConstructor)
      else Ok(Chunk(keyName, Render(fields[k].kind, Default(fields[k].kind)).value))
  }

  // ---------------------------------------------------------------------------
  // The store

  class DbContext {
    const fields: seq<Field>
    const keyName: string
    const filePath: string
    const modelType: string
    /** Whether the file exists, and the lines a reader of it yields. */
    var fileExists: bool
    var lines: seq<string>

    /** Lines are what a reader yields, so none holds a line break, and a
        missing file has none. */
    ghost predicate Valid()
      reads this
    {
      (!fileExists ==> lines == []) && forall i :: 0 <= i < |lines| ==> BreakFree(lines[i])
    }

    /** The base constructor: `Configuration()` has run and its settings pass
        the checks. `file` is the text of the file, `None` when there is none. */
    constructor (config: Option<Config>, modelType: string, fields: seq<Field>, file: Option<string>)
      requires CheckConfig(config).Ok?
      ensures Valid()
      ensures this.fields == fields && this.modelType == modelType
      ensures this.keyName == config.value.keyName && this.filePath == config.value.filePath
      ensures fileExists == file.Some? && lines == if file.Some? then ReadLines(file.value) else []
    {
      this.fields := fields;
      this.modelType := modelType;
      this.keyName := config.value.keyName;
      this.filePath := config.value.filePath;
      fileExists := file.Some?;
      lines := if file.Some? then ReadLines(file.value) else [];
    }

    /** `Append(model)`: one record added as one more line. The file is created
        before encoding starts, so it exists even when encoding fails; then no
        line is written. */
    method Append(m: Model) returns (r: Result<(), Error>)
      requires Valid() && Conforms(fields, m)
      modifies this
      ensures Valid()
      ensures m.Null? ==> r == Err(NullArgument) && unchanged(this)
      ensures m.Instance? && m.typeName != modelType ==> r == Err(TypeMismatch) && unchanged(this)
      ensures m.Instance? && m.typeName == modelType ==> fileExists
      ensures m.Instance? && m.typeName == modelType ==>
        (match EncodeForAppend(fields, keyName, m.values)
         case Ok(line) => r == Ok(()) && lines == old(lines) + WrittenLines(line)
         case Err(e) => r == Err(e) && lines == old(lines))
    {
      if m.Null? {
        return Err(NullArgument);
      }
      if m.typeName != modelType {
        return Err(TypeMismatch);
      }
      fileExists := true;
      var line := EncodeAppended(fields, keyName, m.values);
      if line.Err? {
        return Err(line.error);
      }
      lines := lines + WrittenLines(line.value);
      r := Ok(());
    }

    /** `Append(models)`: the records added in list order. `models[^1]` fails
        on an empty list, and only the last element's type is checked. */
    method AppendAll(models: Option<seq<Model>>) returns (r: Result<(), Error>)
      requires Valid()
      requires models.Some? ==> forall i :: 0 <= i < |models.value| ==> Conforms(fields, models.value[i])
      modifies this
      ensures Valid()
      ensures models.None? ==> r == Err(NullArgument) && unchanged(this)
      ensures models == Some([]) ==> r == Err(IndexOutOfRange) && unchanged(this)
      ensures models.Some? && models.value != [] && !LastFits(models.value, modelType) ==>
        r == Err(TypeMismatch) && unchanged(this)
      ensures models.Some? && models.value != [] && LastFits(models.value, modelType) ==>
        var (written, failure) := BatchOf(fields, keyName, models.value);
        fileExists && lines == old(lines) + written &&
        r == if failure.None? then Ok(()) else Err(failure.value)
    {
      if models.None? {
        return Err(NullArgument);
      }
      var ms := models.value;
      if ms == [] {
        return Err(IndexOutOfRange);
      }
      if !LastFits(ms, modelType) {
        return Err(TypeMismatch);
      }
      fileExists := true;
      ConformsSized(fields, ms);
      ghost var outcomes := Outcomes(fields, keyName, ms);
      var written, failure := WriteBatch(fields, keyName, ms, outcomes);
      BreakFreeConcat(lines, written);
      lines := lines + written;
      r := if failure.None? then Ok(()) else Err(failure.value);
    }

    /** `Get()`: every record of the file, in file order; none without a file. */
    method Get() returns (r: Result<seq<seq<Value>>, Error>)
      requires Valid()
      ensures r == if !fileExists then Ok([]) else DecodeAll(fields, lines)
    {
      if !fileExists {
        return Ok([]);
      }
      var objects: seq<seq<Value>> := [];
      var i := 0;
      while i < |lines|
        invariant 0 <= i <= |lines|
        invariant DecodeAll(fields, lines[..i]) == Ok(objects)
      {
        assert lines[..i + 1][..i] == lines[..i];
        var instance := DecodeRecord(fields, lines[i]);
        if instance.Err? {
          DecodeAllErrorPersists(fields, lines, i + 1);
          return Err(instance.error);
        }
        objects := objects + [instance.value];
        i := i + 1;
      }
      assert lines[..i] == lines;
      r := Ok(objects);
    }

    /** `Get(key)`: the record on the first line that starts with the key's
        chunk, or a fresh instance. */
    method GetByKey(key: Value) returns (r: Result<seq<Value>, Error>)
      requires Valid()
      ensures r == Lookup(fields, keyName, fileExists, lines, key)
    {
      var k := IndexOfName(fields, keyName);
      if k.None? {
        return Err(NoSuchProperty);
      }
      var kind := fields[k.value].kind;
      if kind.StrKind? {
        return Err(NoParameterlessConstructor);
      }
      if !WellTyped(kind, key) {
        return Err(InvalidCast);
      }
      var prefix := Chunk(keyName, Render(kind, key).value);
      var instance := Defaults(fields);
      if !fileExists {
        return Ok(instance);
      }
      var found := FindLine(lines, prefix);
      if found.Some? {
        r := DecodeRecord(fields, lines[found.value]);
        return;
      }
      r := Ok(instance);
    }

    /** `Update(model)`: every line with the record's key chunk rewritten with
        the record's current values; nothing happens without a file. The copy
        replaces the file only once it is complete, so a failure leaves the
        lines as they were. The key is not checked for "\n" here. */
    method Update(m: Model) returns (r: Result<(), Error>)
      requires Valid() && Conforms(fields, m)
      modifies this
      ensures Valid()
      ensures m.Null? ==> r == Err(NullReference) && unchanged(this)
      ensures m.Instance? && m.typeName != modelType ==> r == Err(TypeMismatch) && unchanged(this)
      ensures m.Instance? && m.typeName == modelType && !old(fileExists) ==> r == Ok(()) && unchanged(this)
      ensures m.Instance? && m.typeName == modelType && old(fileExists) ==> fileExists
      ensures m.Instance? && m.typeName == modelType && old(fileExists) ==>
        (match KeyText(fields, keyName, m.values)
         case Err(e) => r == Err(e) && lines == old(lines)
         case Ok(key) =>
           match UpdatedLines(old(lines), Chunk(keyName, key), EncodeLine(fields, keyName, key, m.values))
           case Err(e) => r == Err(e) && lines == old(lines)
           case Ok(copy) => r == Ok(()) && lines == copy)
    {
      if m.Null? {
        return Err(NullReference);
      }
      if m.typeName != modelType {
        return Err(TypeMismatch);
      }
      if !fileExists {
        return Ok(());
      }
      var k := IndexOfName(fields, keyName);
      if k.None? {
        return Err(NoSuchProperty);
      }
      var key := Render(fields[k.value].kind, m.values[k.value]);
      if key.Err? {
        return Err(key.error);
      }
      var prefix := Chunk(keyName, key.value);
      ghost var encoded := EncodeLine(fields, keyName, key.value, m.values);
      var source := lines;
      var copy: seq<string> := [];
      var i := 0;
      while i < |source|
        invariant 0 <= i <= |source| && unchanged(this)
        invariant UpdatedLines(source[..i], prefix, encoded) == Ok(copy)
      {
        assert source[..i + 1][..i] == source[..i];
        var line := source[i];
        if !StartsWith(line, prefix) {
          copy := copy + [line];
        } else {
          var str := EncodeRecord(fields, keyName, key.value, m.values);
          if str.Err? {
            UpdateErrorPersists(source, prefix, encoded, i + 1);
            return Err(str.error);
          }
          copy := copy + WrittenLines(str.value);
        }
        i := i + 1;
      }
      assert source[..i] == source;
      lines := copy;
      r := Ok(());
    }

    /** `Remove(key)` as written: the key argument is not used; the lines
        dropped are those of the record whose key is the key type's default. */
    method Remove(key: Value) returns (r: Result<(), Error>)
      requires Valid()
      modifies this
      ensures Valid()
      ensures match DefaultKeyPrefix(fields, keyName)
        case Err(e) => r == Err(e) && unchanged(this)
        case Ok(prefix) =>
          r == Ok(()) && fileExists == old(fileExists) &&
          lines == if old(fileExists) then Kept(old(lines), prefix) else old(lines)
    {
      var k := IndexOfName(fields, keyName);
      if k.None? {
        return Err(NoSuchProperty);
      }
      var kind := fields[k.value].kind;
      if kind.StrKind? {
        return Err(NoParameterlessConstructor);
      }
      var prefix := Chunk(keyName, Render(kind, Default(kind)).value);
      if fileExists {
        lines := KeepLines(lines, prefix);
      }
      r := Ok(());
    }

    /** `Remove(key)` as evidently intended: the lines of the record with the
        given key are dropped, the key being converted as `Get(key)` does. */
    method RemoveKey(key: Value) returns (r: Result<(), Error>)
      requires Valid()
      modifies this
      ensures Valid()
      ensures match KeyPrefix(fields, keyName, key)
        case Err(e) => r == Err(e) && unchanged(this)
        case Ok(prefix) =>
          r == Ok(()) && fileExists == old(fileExists) &&
          lines == if old(fileExists) then Kept(old(lines), prefix) else old(lines)
    {
      var k := IndexOfName(fields, keyName);
      if k.None? {
        return Err(NoSuchProperty);
      }
      var kind := fields[k.value].kind;
      if kind.StrKind? {
        return Err(NoParameterlessConstructor);
      }
      if !WellTyped(kind, key) {
        return Err(InvalidCast);
      }
      var prefix := Chunk(keyName, Render(kind, key).value);
      if fileExists {
        lines := KeepLines(lines, prefix);
      }
      r := Ok(());
    }
  }

  /** The loop of the batch append: each element's line written in turn,
      until one fails; `written` is what reached the file. `outcomes` names
      what the loop does with each element. */
  method WriteBatch(fields: seq<Field>, keyName: string, ms: seq<Model>, ghost outcomes: seq<Result<string, Error>>)
    returns (written: seq<string>, failure: Option<Error>)
    requires forall j :: 0 <= j < |ms| ==> Sized(fields, ms[j])
    requires |outcomes| == |ms|
    requires forall j {:trigger BatchRecord(fields, keyName, ms[j])} :: 0 <= j < |ms| ==>
      outcomes[j] == BatchRecord(fields, keyName, ms[j])
    ensures (written, failure) == Batch(outcomes, |outcomes|)
  {
    written := [];
    var i := 0;
    while i < |ms|
      invariant 0 <= i <= |ms|
      invariant Batch(outcomes, i) == (written, None)
    {
      var line := BatchLine(fields, keyName, ms, i, outcomes);
      if line.Err? {
        BatchErrorPersists(outcomes, i + 1, |ms|);
        return written, Some(line.error);
      }
      written := written + WrittenLines(line.value);
      i := i + 1;
    }
    failure := None;
  }

  /** One turn of the batch loop: the element's key read, checked and the
      line built. It is the imperative steps of the source, tied to
      `BatchRecord`, the function the batch laws are stated about. */
  method BatchLine(fields: seq<Field>, keyName: string, ms: seq<Model>, i: nat, ghost outcomes: seq<Result<string, Error>>)
    returns (r: Result<string, Error>)
    requires i < |ms| && forall j :: 0 <= j < |ms| ==> Sized(fields, ms[j])
    requires |outcomes| == |ms|
    requires forall j {:trigger BatchRecord(fields, keyName, ms[j])} :: 0 <= j < |ms| ==>
      outcomes[j] == BatchRecord(fields, keyName, ms[j])
    ensures r == outcomes[i]
  {
    match ms[i] {
      case Null =>
        r := if IndexOfName(fields, keyName).None? then Err(NoSuchProperty) else Err(NoTarget);
      case Instance(_, values) =>
        r := EncodeAppended(fields, keyName, values);
    }
    assert r == BatchRecord(fields, keyName, ms[i]);
  }

  lemma BreakFreeConcat(a: seq<string>, b: seq<string>)
    requires forall i :: 0 <= i < |a| ==> BreakFree(a[i])
    requires forall i :: 0 <= i < |b| ==> BreakFree(b[i])
    ensures forall i :: 0 <= i < |a + b| ==> BreakFree((a + b)[i])
  {
  }

  /** The copy loop of Remove: the lines read from the file are written to the
      temporary file unless they start with `prefix`. */
  method KeepLines(lines: seq<string>, prefix: string) returns (copy: seq<string>)
    ensures copy == Kept(lines, prefix)
  {
    copy := [];
    var i := 0;
    while i < |lines|
      invariant 0 <= i <= |lines|
      invariant copy == Kept(lines[..i], prefix)
    {
      assert lines[..i + 1][..i] == lines[..i];
      if !StartsWith(lines[i], prefix) {
        copy := copy + [lines[i]];
      }
      i := i + 1;
    }
    assert lines[..i] == lines;
  }

  /** Once a line fails to decode, the read fails with that error. */
  lemma {:induction false} DecodeAllErrorPersists(fields: seq<Field>, lines: seq<string>, i: nat)
    requires i <= |lines| && DecodeAll(fields, lines[..i]).Err?
    ensures DecodeAll(fields, lines) == DecodeAll(fields, lines[..i])
    decreases |lines| - i
  {
    if i < |lines| {
      assert lines[..i + 1][..i] == lines[..i];
      DecodeAllErrorPersists(fields, lines, i + 1);
    } else {
      assert lines[..i] == lines;
    }
  }

  /** Once an element fails, the batch stops with that error. */
  lemma {:induction false} BatchErrorPersists(outcomes: seq<Result<string, Error>>, i: nat, j: nat)
    requires i <= j <= |outcomes| && Batch(outcomes, i).1.Some?
    ensures Batch(outcomes, j) == Batch(outcomes, i)
    decreases j - i
  {
    if i < j {
      BatchErrorPersists(outcomes, i + 1, j);
    }
  }

  /** Once the copy fails, Update fails with that error. */
  lemma {:induction false} UpdateErrorPersists(lines: seq<string>, prefix: string, encoded: Result<string, Error>, i: nat)
    requires i <= |lines| && UpdatedLines(lines[..i], prefix, encoded).Err?
    ensures UpdatedLines(lines, prefix, encoded) == UpdatedLines(lines[..i], prefix, encoded)
    decreases |lines| - i
  {
    if i < |lines| {
      assert lines[..i + 1][..i] == lines[..i];
      UpdateErrorPersists(lines, prefix, encoded, i + 1);
    } else {
      assert lines[..i] == lines;
    }
  }
}
