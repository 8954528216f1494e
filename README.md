# SLVZDB DbContext, modelled in Dafny

SLVZDB is a small file-backed record store. A `DbContext<TModel>` is bound to
one record type, one key property (`KeyName`) and one file (`FilePath`). The
file holds one record per line. A line is the key chunk `<db.KEY>value</db.KEY>`
followed by one `<db.NAME>value</db.NAME>` chunk per other property, in
declaration order. The chunks are joined by the separator `<db.br/>`. A line
break inside a string value is written as `<db.break/>`. The store offers
`Append` (one record or a list), `Get()`, `Get(key)`, `Update(record)` and
`Remove(key)`. `Update` and `Remove` copy the file line by line to a
temporary file and then copy that file back over the original.

The model keeps the store's own structure:

- `Text` is the .NET string behaviour the store relies on. It gives
  `StartsWith`, `Contains` and `EndsWith` compared character by character, and
  `Replace` as a global left-to-right substitution. `Contains`, `Replace` and
  `Split` are ordinal in .NET as well; `StartsWith` and `EndsWith` are not
  (see "Left out"). `Split` keeps empty pieces. `Remove(start,
  count)` is there too. `StreamReader.ReadLine` ends a line at "\n", "\r"
  or "\r\n". `WriteLine(t)` followed by reads yields `ReadLines(t + "\n")`.
- `Numbers` holds `Int32.ToString` and `Int32.Parse`.
- `Records` holds the record schema and values. A record type is a sequence
  of `Field(name, kind)`. A kind is int, bool, string, or an enum with
  members 0..n-1. It also holds the tags, `ToString` of a value,
  `Convert.ChangeType` and `Enum.Parse` of a chunk, and the error kinds.
- `Codec` holds the encoding loop: `EncodeRecord`, specified by
  `EncodeLine`. It also holds `ApplyChunks` and its method `DecodeRecord`,
  the nested decoding loops of `Get`.
- `CodecLaws` holds the properties of the line format: the decoding round
  trip, the line layout, break-freedom and the matching rules.
- `Store` holds the `DbContext` class. Its state is whether the file exists
  and the sequence of lines a reader of it yields. Each public operation is
  a method proved equal to a specification function of the old state.
- `StoreLaws` holds how the operations combine, for example append then
  read, append then look up, update then look up, and remove then look up.

Where the code and the general description of the store differ, the model
follows the code. All of these cases are stated as contracts:

- `Remove(key)` ignores its argument.
- An enum chunk holding an undeclared number is accepted by `Enum.Parse`.
- Only the last element of a batch has its type checked.
- A null element of a batch fails only when its key property is read.
- `Update` does not refuse a key that contains "\n".

## Model

| member | source | states |
|---|---|---|
| Store.CheckConfig | SLVZDB/DbContext.cs:19-28 | construction succeeds exactly when `SetConfig` ran with a non-empty file path and key name, and otherwise fails with a configuration error |
| Store.DbContext.constructor | SLVZDB/DbContext.cs:10-28 | the context keeps the configured key name, file path and type, and its lines are what a reader of the file yields (none without a file) |
| Store.DbContext.Append | SLVZDB/DbContext.cs:32-81 | null fails with ArgumentNull; a foreign runtime type fails with TypeMismatch; both leave the state unchanged. Otherwise the file exists afterwards, and either the encoded line's reader lines are appended or the encoding error is returned with the lines unchanged |
| Codec.EncodeAppended | SLVZDB/DbContext.cs:46-50 | Append's encoding equals `EncodeForAppend`: a missing key property, a null key and a key containing "\n" are errors, and otherwise the line is the encoding |
| Codec.EncodeForAppend | SLVZDB/DbContext.cs:48-50 | a successful encoding has a key text that renders and contains no "\n" |
| Codec.EncodeRecord | SLVZDB/DbContext.cs:45-68 | the string-building loop, including `str.Remove(str.Length - 9, 8)`, yields exactly the key chunk and the non-key chunks joined by `<db.br/>`, or the error of the first null property |
| Codec.DropLastSeparator | SLVZDB/DbContext.cs:67-68 | removing 8 characters at `Length - 9` from a line that ends in '>' plus the separator leaves exactly the line |
| Codec.ChunksEndWithTag | SLVZDB/DbContext.cs:64 | every non-key chunk is non-empty and ends with '>' |
| Codec.DecodeRecord | SLVZDB/DbContext.cs:157-190 | the nested decoding loops equal `Decode`: the line is split on `<db.br/>`, each chunk goes to the first property whose open tag it starts with, and the first chunk that fails to parse fails the read |
| Codec.MatchField | SLVZDB/DbContext.cs:161-188 | the chosen property's open tag starts the chunk and no earlier property's does; none when no open tag starts it |
| Codec.FindField | SLVZDB/DbContext.cs:161-188 | the property loop stops, by its `break`, at the first property whose open tag starts the chunk, the one `MatchField` names, and finds none when no open tag does |
| Codec.Decode | SLVZDB/DbContext.cs:157-190 | a decoded record has one value per property |
| Codec.ApplyErrorPersists | SLVZDB/DbContext.cs:159-190 | once a chunk fails to convert, the whole line fails with that error |
| CodecLaws.RoundTrip | SLVZDB/DbContext.cs:45-70 | decoding the line Append writes for a storable record gives back every int, bool, enum and string value |
| CodecLaws.LineLayout | SLVZDB/DbContext.cs:52-68 | the line is the key chunk followed by the non-key chunks joined by the separator; it starts with the key chunk and does not end with the separator |
| CodecLaws.AppendLineBreakFree | SLVZDB/DbContext.cs:49-70 | an appended line has no "\n"; when no string value has "\r", the line is read back as exactly one line |
| CodecLaws.KeyChunkAsField | SLVZDB/DbContext.cs:48-52 | the key's text is what its property contributes as an ordinary field |
| CodecLaws.FieldTextBreaks | SLVZDB/DbContext.cs:58-62 | a rendered field has no "\n", and no "\r" unless the string value has one |
| CodecLaws.NonKeyChunksBreaks | SLVZDB/DbContext.cs:54-66 | no non-key chunk contains "\n", or "\r" when no string value has one |
| CodecLaws.ChunksEndInName | SLVZDB/DbContext.cs:64 | every non-key chunk ends with an identifier character and '>' |
| CodecLaws.JoinEndsInName | SLVZDB/DbContext.cs:67-68 | chunks joined by the separator end in a name character and '>', so the result never ends with the separator |
| CodecLaws.MatchOwnChunk | SLVZDB/DbContext.cs:161-163 | with distinct identifier names, a property's own chunk is matched to that property and to no earlier one |
| CodecLaws.UnmatchedKeepsValue | SLVZDB/DbContext.cs:159-190 | a property that no chunk matches keeps its freshly created value |
| CodecLaws.LastMatchWins | SLVZDB/DbContext.cs:159-190 | when several chunks match a property, the last one gives its value |
| CodecLaws.UnparsableFails | SLVZDB/DbContext.cs:172 | a matched chunk that does not convert makes the whole decode fail |
| CodecLaws.DecodeUpTo | SLVZDB/DbContext.cs:157-190 | decoding the key chunk and the first i non-key chunks gives the record's values for those properties and defaults elsewhere |
| CodecLaws.ChunksSplittable | SLVZDB/DbContext.cs:159 | no chunk of a storable record contains the separator, so splitting recovers the chunks |
| Records.ReadFieldRoundTrip | SLVZDB/DbContext.cs:163-187 | reading back a property's chunk gives the stored value: the tags are stripped, `<db.break/>` becomes "\n" again, and an int, bool or enum converts back |
| Records.IndexOfName | SLVZDB/DbContext.cs:48 | `GetProperty(KeyName)` finds the property with that name (the names of a well-formed record type are distinct), or none |
| Records.Render | SLVZDB/DbContext.cs:58 | `ToString()` fails exactly on a null string |
| Records.FieldText | SLVZDB/DbContext.cs:58-62 | a non-key property's text fails exactly on a null string |
| Records.Default | SLVZDB/DbContext.cs:157 | a property of a freshly created instance holds a value of its type |
| Records.Defaults | SLVZDB/DbContext.cs:157 | a freshly created instance holds a value of the right type for each property |
| Records.ParseBool | SLVZDB/DbContext.cs:172 | `Boolean.Parse` accepts "True" and "False" |
| Records.ParseEnum | SLVZDB/DbContext.cs:181 | `Enum.Parse` yields a 32-bit number or a declared member, and a declared member's name gives that member |
| Records.ReadField | SLVZDB/DbContext.cs:163-187 | a string chunk always converts; a failed conversion is a FormatError; an int, bool or string chunk converts to a value of its property's type; an enum chunk converts to an enum value that is a 32-bit number or a declared member, so always a value of its type when the enum is well-formed (at most 2^31 members) |
| Records.FieldTextClean | SLVZDB/DbContext.cs:58-64 | a storable value's text has neither the separator, nor its own tags, nor "\n" |
| Records.ChunkSep | SLVZDB/DbContext.cs:159 | a chunk whose text lacks the separator does not contain it |
| Records.StripTags | SLVZDB/DbContext.cs:167-172 | the two `Replace` calls that strip the tags give back the chunk's text |
| Records.OpenTagsExclusive | SLVZDB/DbContext.cs:163 | a chunk opened by one property never starts with another property's open tag |
| Records.RenderPlain | SLVZDB/DbContext.cs:58 | an int, bool or enum renders without '<' and without line breaks |
| Numbers.IntRoundTrip | SLVZDB/DbContext.cs:172 | `Int32.Parse` of `ToString()` gives back every 32-bit value |
| Numbers.ParseInt | SLVZDB/DbContext.cs:172 | a parsed int lies in the 32-bit range |
| Text.UnescapeEscape | SLVZDB/DbContext.cs:167 | replacing "\n" by `<db.break/>` and then back restores a string that lacks the sentinel |
| Text.SplitJoin | SLVZDB/DbContext.cs:159 | splitting chunks joined by a separator token gives back the chunks |
| Text.WrittenBreakFree | SLVZDB/DbContext.cs:156 | a line without "\n" or "\r" that is written and then read comes back as that one line |
| Text.ReadLines | SLVZDB/DbContext.cs:153-156 | no line a reader yields holds a line break |
| Text.RemoveRange | SLVZDB/DbContext.cs:68 | `str.Remove(start, count)` keeps what lies before `start` and after the removed characters |
| Store.DbContext.AppendAll | SLVZDB/DbContext.cs:83-134 | a null list fails with ArgumentNull and an empty list with IndexOutOfRange; a last element of the wrong type fails with TypeMismatch; all three leave the state unchanged. Otherwise the file exists and the lines the batch wrote until its first failing element are appended, with that element's error returned |
| Store.WriteBatch | SLVZDB/DbContext.cs:96-124 | the batch loop writes each element's line in turn and stops at the first failure, equal to `Batch` |
| Store.BatchLine | SLVZDB/DbContext.cs:98-121 | one turn of the batch loop: a null element fails when its key is read, and an instance is encoded as in Append |
| Store.Outcomes | SLVZDB/DbContext.cs:96-124 | the batch treats every element in list order |
| Store.Batch | SLVZDB/DbContext.cs:96-124 | every line the batch writes is break-free |
| Store.BatchErrorPersists | SLVZDB/DbContext.cs:96-124 | once an element fails, nothing after it is written |
| Store.DbContext.Get | SLVZDB/DbContext.cs:136-201 | without a file there are no records; otherwise every line is decoded in file order, and the first failing line fails the read |
| Store.DecodeAll | SLVZDB/DbContext.cs:153-195 | a successful read has one record per line |
| Store.DecodeAllErrorPersists | SLVZDB/DbContext.cs:153-195 | once a line fails to decode, the read fails with that error |
| Store.DbContext.GetByKey | SLVZDB/DbContext.cs:203-270 | equals `Lookup`: the key is converted to the key property's type (string keys and mismatched values fail); without a file or a matching line the result is a fresh instance; otherwise it is the first line that starts with the key chunk, decoded |
| Store.KeyPrefix | SLVZDB/DbContext.cs:211-227 | a key that converts is of the key property's non-string type, and the prefix is its chunk |
| Store.FirstStarting | SLVZDB/DbContext.cs:222-228 | the first line that starts with the prefix, and no earlier one does; none when no line does |
| Store.FindLine | SLVZDB/DbContext.cs:222-228 | the reading loop of `Get(key)` stops at exactly the line `FirstStarting` names, and reports none when no line starts with the prefix |
| Store.DbContext.Update | SLVZDB/DbContext.cs:307-368 | null fails with NullReference and a foreign type with TypeMismatch; without a file nothing happens. Otherwise the lines become `UpdatedLines` of the old lines, or stay as they were when the key or the copy fails |
| Store.UpdatedLines | SLVZDB/DbContext.cs:326-356 | every copied line is break-free or one of the file's lines; an update can fail only with the encoding's own error |
| Store.UpdateErrorPersists | SLVZDB/DbContext.cs:326-356 | once the copy fails, the update fails with that error |
| Store.DbContext.Remove | SLVZDB/DbContext.cs:272-305 | as written: the filter prefix is the chunk of the key type's default (string keys fail), whatever the argument; the lines become those without that prefix when the file exists |
| Store.DefaultKeyPrefix | SLVZDB/DbContext.cs:277-278 | Remove's prefix is what `Get(key)` would look for with the default key value |
| Store.DbContext.RemoveKey | SLVZDB/DbContext.cs:272-305 | as intended: the filter prefix is the chunk of the given key, converted as `Get(key)` converts it |
| Store.KeepLines | SLVZDB/DbContext.cs:288-293 | the copy loop of Remove equals `Kept` |
| Store.Kept | SLVZDB/DbContext.cs:288-293 | the copy is no longer than the file, and each kept line is a line of the file without the prefix |
| StoreLaws.AppendedLine | SLVZDB/DbContext.cs:45-70 | a storable record's line is one reader line, decodes to the record and starts with its key chunk |
| StoreLaws.DecodeAllEach | SLVZDB/DbContext.cs:153-195 | a read succeeds exactly when every line decodes, and then yields each line's record at its position |
| StoreLaws.AppendThenRead | SLVZDB/DbContext.cs:32-201 | after an append, a read yields the earlier records and then the appended one |
| StoreLaws.AppendThenLookup | SLVZDB/DbContext.cs:203-270 | after an append, `Get(key)` with the record's key finds the record unless an earlier line has that key |
| StoreLaws.BatchOkSoFar | SLVZDB/DbContext.cs:96-124 | until an element fails, the batch reports no error |
| StoreLaws.BatchStopsAtFirstError | SLVZDB/DbContext.cs:96-124 | the batch stops at its first failing element with that element's error and keeps what the earlier elements wrote |
| StoreLaws.BatchWritesEach | SLVZDB/DbContext.cs:96-124 | when each line is one reader line, the batch writes one line per element in list order |
| StoreLaws.AppendAllThenRead | SLVZDB/DbContext.cs:83-201 | reading the lines a batch of storable records wrote gives back the records in list order |
| StoreLaws.UpdateNoMatch | SLVZDB/DbContext.cs:326-330 | when no line has the key chunk, the copy is the file unchanged |
| StoreLaws.UpdateReplaces | SLVZDB/DbContext.cs:326-356 | the copy has the file's lines in order, with each line that has the key chunk replaced by the encoding |
| StoreLaws.UpdateFailsOnMatch | SLVZDB/DbContext.cs:331-354 | a record that cannot be encoded fails the update exactly when some line has the key chunk |
| StoreLaws.NewlineBlocksPrefix | SLVZDB/DbContext.cs:328-329 | a line a reader yields never starts with a text that contains "\n" |
| StoreLaws.NewlineKeyUpdatesNothing | SLVZDB/DbContext.cs:318-330 | an update whose key contains "\n" matches no line and leaves the file unchanged |
| StoreLaws.UpdateThenLookup | SLVZDB/DbContext.cs:203-368 | after an update of a record whose key some line has, `Get(key)` gives the record's new values |
| StoreLaws.KeptConcat | SLVZDB/DbContext.cs:288-293 | Remove filters the lines one by one and never reorders them |
| StoreLaws.KeptKeepsOthers | SLVZDB/DbContext.cs:288-293 | every line without the prefix survives the removal |
| StoreLaws.RemoveThenLookup | SLVZDB/DbContext.cs:203-305 | after the lines of a key are removed, `Get(key)` gives a fresh instance |
| StoreLaws.RemoveLeavesRecord | SLVZDB/DbContext.cs:277-291 | as written, `Remove(5)` on the record with int key 5 filters on `<db.ID>0</db.ID>`, keeps the line, and `Get(5)` still finds the record |
| StoreLaws.RemoveKeyDropsRecord | SLVZDB/DbContext.cs:277-291 | as intended, `Remove(5)` filters on `<db.ID>5</db.ID>`, drops the line, and `Get(5)` gives a fresh instance |

## Left out

- File I/O is modelled as state. The store's file is the pair of whether it exists and the lines a reader yields. The temporary file, `File.Copy` and `File.Delete` are not modelled. Neither is the `CreateNew` failure when a `.tmp` file is left over.
- Reflection and `dynamic` are replaced by an explicit schema (`Field(name, kind)`). Records are sequences of values, and a runtime type is a name.
- The kinds are int, bool, string and zero-based enums. Double properties (the `Grade` of the example program) are left out, because floating-point formatting is not modelled. Enums with explicit member values are left out too.
- `Get(key)` converts the `dynamic` argument only when it already has the key property's type. Any other argument gives InvalidCast. `Convert.ChangeType` between types (a string "5" to an int, say) is not modelled.
- `Enum.Parse` with comma-separated flags and with leading or trailing white space is not modelled (its two-argument form is case-sensitive, as the model is). Neither is white space accepted by `Int32.Parse` and `Boolean.Parse`. Only the forms the store writes, and their failures, are.
- The `ModelType == null` and `typeof(TModel) != ModelType` checks of `Get`, `Get(key)`, `Remove` and `Update` cannot fail once the constructor has succeeded, so they are not modelled. The `(TModel)Convert.ChangeType(instance, ModelType)` cast cannot fail either.
- Every exception is modelled as an `Error` value. The `throw new Exception(e.Message)` re-wrapping in `Append` is not modelled. Some kinds group several .NET exceptions, or stand for the exception the caller actually sees: FormatError also covers OverflowException (a number out of range) and ArgumentException (an unknown enum name); IndexOutOfRange is the List indexer's ArgumentOutOfRangeException; NoSuchProperty is the NullReferenceException that follows `GetProperty` returning null.
- Append assumes that the file ends in a line break, as the store's own writes leave it. A file edited by hand that ends without one would merge the new record into its last line.
- Update and Remove copy an unmatched line with `WriteLine(line)`. The model keeps the line itself as one line, which is what a reader yields back, because no line a reader yields holds a line break.
- Store.DbContext.Update: says nothing about a key that contains "\n". Such a key matches no line, so the update is a no-op (`StoreLaws.NewlineKeyUpdatesNothing`).
- Store.Kept: its own contract gives membership and length only. Order and completeness are stated separately by `StoreLaws.KeptConcat` and `StoreLaws.KeptKeepsOthers`.
- Store.UpdatedLines: its own contract gives membership only. Length and position are stated by `StoreLaws.UpdateReplaces`, for encodings that read back as one line.
- A record whose string value contains "\r" is written fine but read back as two lines. The model keeps this (`WrittenLines`), and the round-trip lemmas exclude such values.
- Identifiers are ASCII letters, digits and '_'. Unicode property names are left out.
- Concurrency and locking are left out: the source has none.
- Text.StartsWith and Text.EndsWith compare by code point, where .NET's `StartsWith(string)` and `EndsWith(string)` compare by the current culture. Keys and field values holding characters without collation weight (a soft hyphen, say) can match a prefix in .NET that the model rejects, in decoding (lines 163 and 177), `Get(key)` (line 227) and `Update` (line 329).
- A fresh instance is modelled with each property at its CLR zero value (0, false, null, the first enum member). `Activator.CreateInstance` runs the record class's constructor and property initializers, so the model covers only record classes without initializers or constructor logic. This affects `Get(key)` without a matching line and properties missing from a line. The key-type default in `Remove` is a plain CLR zero and is modelled as such.
- The configuration is fixed at construction: `keyName` and `filePath` are constants. The source's public `SetConfig` can be called again later, which redirects every later operation to another file or key and skips the constructor's non-empty checks; that is not modelled.

## Findings

| source | as written | input that shows it | evidently intended | confidence | as-written member | corrected member |
|---|---|---|---|---|---|---|
| SLVZDB/DbContext.cs:277-278 | `Remove(Key)` builds its comparison key from `Activator.CreateInstance` of the key type and converts that default to itself, never reading `Key` | a store with int key `ID` holding the record with ID 5: `Remove(5)` filters on `<db.ID>0</db.ID>`, keeps the record, and `Get(5)` still returns it | convert `Key` to the key type, as `Get(key)` does (line 212), and drop the lines that start with its chunk; `Store.DbContext.Remove` models the code as written, `Store.DbContext.RemoveKey` as intended | not executed | StoreLaws.RemoveLeavesRecord | StoreLaws.RemoveKeyDropsRecord |
