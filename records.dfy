/** The record type the store is configured with, made explicit: the ordered list
    of properties that reflection (`GetProperties()`) would enumerate, each with
    its kind, and the values a record holds. Also the tags of the line format,
    how one value is rendered into a tagged chunk and how a chunk is read back. */
module Records {

  import opened Wrappers
  import opened Text
  import opened Numbers

  /** The separator between the chunks of one line. */
  const Sep: string := "<db.br/>"
  /** What a line break inside a string value is written as. */
  const Break: string := "<db.break/>"

  function Open(name: string): string {
    "<db." + name + ">"
  }

  function Close(name: string): string {
    "</db." + name + ">"
  }

  /** The property types the store handles: int, bool, string and enums, the
      last with its member names in declaration order (member i has value i). */
  datatype Kind = IntKind | BoolKind | StrKind | EnumKind(symbols: seq<string>)

  datatype Field = Field(name: string, kind: Kind)

  /** A field value; `NullV` is a string property holding null, which is what a
      freshly created record has. */
  datatype Value = IntV(i: int) | BoolV(b: bool) | StrV(s: string) | NullV | EnumV(ordinal: int)

  /** The ways an operation of the store raises an exception. */
  datatype Error =
    | ConfigurationError          // KeyName or FilePath unset or empty
    | NullArgument                // a null record was passed
    | TypeMismatch                // the record's runtime type is not the configured one
    | NoSuchProperty              // KeyName names no property: `GetProperty` returns null,
                                  // and the property read then throws NullReferenceException
    | NullReference               // ToString() was called on a null string
    | NewlineInKey                // the key's text contains "\n"
    | FormatError                 // a chunk's text does not convert to its property's type:
                                  // FormatException, OverflowException (a number out of the
                                  // 32-bit range) or ArgumentException (an unknown enum name)
    | IndexOutOfRange             // `models[^1]` on an empty list, which the List indexer
                                  // reports as ArgumentOutOfRangeException
    | NoParameterlessConstructor  // Activator.CreateInstance on the string type
    | InvalidCast                 // Convert.ChangeType of the key argument failed
    | NoTarget                    // a property read from a null record in a batch

  predicate IdentChar(c: char) {
    'a' <= c <= 'z' || 'A' <= c <= 'Z' || IsDigit(c) || c == '_'
  }

  /** A C# identifier (ASCII only): property and enum member names. */
  predicate Identifier(n: string) {
    n != [] && !IsDigit(n[0]) && forall i :: 0 <= i < |n| ==> IdentChar(n[i])
  }

  predicate DistinctNames(names: seq<string>) {
    forall i, j :: 0 <= i < j < |names| ==> names[i] != names[j]
  }

  function Names(fields: seq<Field>): (names: seq<string>)
    ensures |names| == |fields|
    ensures forall i :: 0 <= i < |fields| ==> names[i] == fields[i].name
  {
    seq(|fields|, i requires 0 <= i < |fields| => fields[i].name)
  }

  /** An enum's members have distinct identifier names, and since member i has
      the implicit value i of the `int` underlying type, there are at most
      2^31 of them. */
  predicate WellFormedKind(k: Kind) {
    k.EnumKind? ==>
      DistinctNames(k.symbols) && |k.symbols| <= MaxInt32 + 1 &&
      forall i :: 0 <= i < |k.symbols| ==> Identifier(k.symbols[i])
  }

  /** What the C# compiler guarantees of a class: property names are distinct
      identifiers, enum members likewise. */
  predicate WellFormed(fields: seq<Field>) {
    DistinctNames(Names(fields)) &&
    forall i :: 0 <= i < |fields| ==> Identifier(fields[i].name) && WellFormedKind(fields[i].kind)
  }

  /** A value a property of this kind can hold. */
  predicate WellTyped(k: Kind, v: Value) {
    match k
    case IntKind => v.IntV? && IsInt32(v.i)
    case BoolKind => v.BoolV?
    case StrKind => v.StrV? || v.NullV?
    case EnumKind(_) => v.EnumV? && IsInt32(v.ordinal)
  }

  predicate WellTypedRecord(fields: seq<Field>, values: seq<Value>) {
    |values| == |fields| && forall i :: 0 <= i < |fields| ==> WellTyped(fields[i].kind, values[i])
  }

  /** The value of a property of a freshly created instance. */
  function Default(k: Kind): (v: Value)
    ensures WellTyped(k, v)
  {
    match k
    case IntKind => IntV(0)
    case BoolKind => BoolV(false)
    case StrKind => NullV
    case EnumKind(_) => EnumV(0)
  }

  function Defaults(fields: seq<Field>): (values: seq<Value>)
    ensures WellTypedRecord(fields, values)
  {
    seq(|fields|, i requires 0 <= i < |fields| => Default(fields[i].kind))
  }

  /** The property called `name`, as `GetProperty(name)` finds it (the names
      of a well-formed record type are distinct, so there is at most one). */
  function IndexOfName(fields: seq<Field>, name: string): (r: Option<nat>)
    ensures r.Some? ==> r.value < |fields| && fields[r.value].name == name
    ensures r.Some? ==> forall j :: 0 <= j < r.value ==> fields[j].name != name
    ensures r.None? ==> forall j :: 0 <= j < |fields| ==> fields[j].name != name
  {
    if fields == [] then None
    else if fields[0].name == name then Some(0)
    else match IndexOfName(fields[1..], name)
      case None => None
      case Some(j) => Some(j + 1)
  }

  /** `value.ToString()`: ints in decimal, bools as "True"/"False", an enum by
      its member name, or by its number when no member has that value; null
      strings throw. */
  function Render(k: Kind, v: Value): (r: Result<string, Error>)
    ensures r.Err? <==> v.NullV?
  {
    match v
    case NullV => Err(NullReference)
    case IntV(i) => Ok(IntToString(i))
    case BoolV(b) => Ok(if b then "True" else "False")
    case StrV(s) => Ok(s)
    case EnumV(o) =>
      if k.EnumKind? && 0 <= o < |k.symbols| then Ok(k.symbols[o]) else Ok(IntToString(o))
  }

  /** The text a non-key property contributes: rendered, and for a string
      property with every "\n" replaced by the break sentinel. */
  function FieldText(f: Field, v: Value): (r: Result<string, Error>)
    ensures r.Err? <==> v.NullV?
  {
    var t :- Render(f.kind, v);
    if f.kind.StrKind? then Ok(Replace(t, "\n", Break)) else Ok(t)
  }

  function Chunk(name: string, text: string): string {
    Open(name) + text + Close(name)
  }

  function Lower(c: char): char {
    if 'A' <= c <= 'Z' then (c as int + 32) as char else c
  }

  /** Ordinal comparison ignoring the case of ASCII letters. */
  predicate EqualsIgnoreCase(s: string, t: string) {
    |s| == |t| && forall i :: 0 <= i < |s| ==> Lower(s[i]) == Lower(t[i])
  }

  /** `Boolean.Parse`: "True" or "False" in any letter case. */
  function ParseBool(s: string): (r: Option<bool>)
    ensures s == "True" ==> r == Some(true)
    ensures s == "False" ==> r == Some(false)
  {
    if EqualsIgnoreCase(s, "True") then Some(true)
    else if EqualsIgnoreCase(s, "False") then Some(false)
    else None
  }

  function IndexOfSymbol(symbols: seq<string>, s: string): (r: Option<nat>)
    ensures r.Some? ==> r.value < |symbols| && symbols[r.value] == s
    ensures r.Some? ==> forall j :: 0 <= j < r.value ==> symbols[j] != s
    ensures r.None? ==> s !in symbols
  {
    if symbols == [] then None
    else if symbols[0] == s then Some(0)
    else match IndexOfSymbol(symbols[1..], s)
      case None => None
      case Some(j) => Some(j + 1)
  }

  /** `Enum.Parse`: text that starts like a number is read as the (possibly
      undeclared) value; otherwise it must be a member name. */
  function ParseEnum(symbols: seq<string>, s: string): (r: Option<int>)
    ensures r.Some? ==> IsInt32(r.value) || 0 <= r.value < |symbols|
    ensures WellFormedKind(EnumKind(symbols)) && s in symbols ==>
      r.Some? && 0 <= r.value < |symbols| && symbols[r.value] == s
  {
    if s != [] && (IsDigit(s[0]) || s[0] == '-' || s[0] == '+') then ParseInt(s)
    else match IndexOfSymbol(symbols, s)
      case None => None
      case Some(j) => Some(j)
  }

  /** The chunk's text with the property's own open and close tags removed (by
      a global Replace, as the source does). */
  function Inner(name: string, chunk: string): string {
    Replace(Replace(chunk, Open(name), ""), Close(name), "")
  }

  /** The value a chunk that starts with `f`'s open tag gives to `f`. */
  function ReadField(f: Field, chunk: string): (r: Result<Value, Error>)
    ensures r.Ok? && !f.kind.EnumKind? ==> WellTyped(f.kind, r.value)
    ensures r.Ok? && f.kind.EnumKind? ==>
      r.value.EnumV? && (IsInt32(r.value.ordinal) || 0 <= r.value.ordinal < |f.kind.symbols|)
    ensures r.Ok? && WellFormedKind(f.kind) ==> WellTyped(f.kind, r.value)
    ensures r.Err? ==> r.error == FormatError
    ensures f.kind.StrKind? ==> r.Ok?
  {
    var text := Inner(f.name, chunk);
    match f.kind
    case StrKind => Ok(StrV(Replace(text, Break, "\n")))
    case IntKind =>
      (match ParseInt(text) case Some(i) => Ok(IntV(i)) case None => Err(FormatError))
    case BoolKind =>
      (match ParseBool(text) case Some(b) => Ok(BoolV(b)) case None => Err(FormatError))
    case EnumKind(symbols) =>
      (match ParseEnum(symbols, text) case Some(o) => Ok(EnumV(o)) case None => Err(FormatError))
  }

  /** A string value the codec restores: it holds neither the separator, the
      break sentinel, nor its own property's tags, all of which the decoder
      would split at or strip. */
  predicate Restorable(name: string, s: string) {
    !Contains(s, Sep) && !Contains(s, Break) && !Contains(s, Open(name)) && !Contains(s, Close(name))
  }

  // ---------------------------------------------------------------------------
  // Lemmas about tags

  lemma TagTokens(name: string)
    requires Identifier(name)
    ensures Token(Open(name)) && Token(Close(name)) && Token(Sep) && Token(Break)
  {
    var o, c := Open(name), Close(name);
    forall i | 0 < i < |o| - 1 ensures o[i] != '<' && o[i] != '>' {
      if i >= 4 { assert o[i] == name[i - 4]; }
    }
    forall i | 0 < i < |c| - 1 ensures c[i] != '<' && c[i] != '>' {
      if i >= 5 { assert c[i] == name[i - 5]; }
    }
  }

  lemma SepToken()
    ensures Token(Sep)
  {
  }

  /** Tags of a property are neither the separator nor the break sentinel nor
      each other. */
  lemma TagsDiffer(name: string)
    requires Identifier(name)
    ensures Open(name) != Sep && Open(name) != Break && Close(name) != Sep
    ensures Close(name) != Break && Close(name) != Open(name)
  {
    assert Close(name)[1] == '/';
    if |name| == 3 {
      assert Open(name)[6] == name[2] && IdentChar(name[2]);
    }
    if |name| == 6 {
      assert Open(name)[9] == name[5] && IdentChar(name[5]);
    }
  }

  /** No token occurs in text without '<'. */
  lemma NoAngleNoToken(s: string, p: string)
    requires Token(p) && '<' !in s
    ensures !Contains(s, p)
  {
    if Contains(s, p) {
      var i := ContainsWitness(s, p);
    }
  }

  /** A distinct token does not occur in a token. */
  lemma TokenFree(q: string, p: string)
    requires Token(p) && Token(q) && p != q
    ensures !Contains(q, p)
  {
    if Contains(q, p) { TokenInToken(p, q); }
  }

  /** A chunk that starts with property `m`'s open tag does not start with
      another property's open tag: the tags end in '>', which no name holds. */
  lemma OpenTagsExclusive(n: string, m: string, rest: string)
    requires Identifier(n) && Identifier(m) && n != m
    ensures !StartsWith(Open(m) + rest, Open(n))
  {
    var c := Open(m) + rest;
    if |n| < |m| {
      assert c[4 + |n|] == m[|n|] && IdentChar(m[|n|]);
      assert Open(n)[4 + |n|] == '>';
    } else if |n| > |m| {
      assert c[4 + |m|] == '>';
      assert Open(n)[4 + |m|] == n[|m|] && IdentChar(n[|m|]);
    } else {
      var i :| 0 <= i < |n| && n[i] != m[i];
      assert c[4 + i] == m[i] && Open(n)[4 + i] == n[i];
    }
  }

  /** Tag shape of a chunk: it begins with '<', ends with '>'. */
  lemma ChunkEnds(name: string, text: string)
    ensures Chunk(name, text) != [] && Chunk(name, text)[|Chunk(name, text)| - 1] == '>'
    ensures Chunk(name, text)[0] == '<' && StartsWith(Chunk(name, text), Open(name))
  {
    assert Chunk(name, text)[..|Open(name)|] == Open(name);
  }

  /** A chunk holds the separator only if its text does. */
  lemma ChunkSep(name: string, text: string)
    requires Identifier(name) && !Contains(text, Sep)
    ensures !Contains(Chunk(name, text), Sep)
  {
    TagsLackSep(name);
    BetweenTagsLacks(Open(name), text, Close(name), Sep);
  }

  lemma TagsLackSep(name: string)
    requires Identifier(name)
    ensures Token(Sep) && Open(name)[|Open(name)| - 1] == '>' && Close(name)[0] == '<'
    ensures !Contains(Open(name), Sep) && !Contains(Close(name), Sep)
  {
    TagTokens(name);
    TagsDiffer(name);
    TokenFree(Open(name), Sep);
    TokenFree(Close(name), Sep);
  }

  /** Stripping the tags gives back a text that holds neither of them. */
  lemma StripTags(name: string, text: string)
    requires Identifier(name)
    requires !Contains(text, Open(name)) && !Contains(text, Close(name))
    ensures Inner(name, Chunk(name, text)) == text
  {
    StripOpen(name, text);
    StripClose(name, text);
  }

  lemma StripOpen(name: string, text: string)
    requires Identifier(name) && !Contains(text, Open(name))
    ensures Replace(Chunk(name, text), Open(name), "") == text + Close(name)
  {
    var o, c := Open(name), Close(name);
    TagTokens(name);
    CloseLacksOpen(name);
    var tail := text + c;
    ReplaceAppend(text, c, o, "");
    assert Replace(tail, o, "") == tail;
    ReplaceAppend(o, tail, o, "");
    ReplaceSelf(o, "");
    assert Chunk(name, text) == o + tail;
  }

  lemma CloseLacksOpen(name: string)
    requires Identifier(name)
    ensures !Contains(Close(name), Open(name))
  {
    TagTokens(name);
    TagsDiffer(name);
    TokenFree(Close(name), Open(name));
  }

  lemma ReplaceSelf(p: string, r: string)
    requires p != []
    ensures Replace(p, p, r) == r
  {
    assert StartsWith(p, p) && p[|p|..] == [];
  }

  lemma StripClose(name: string, text: string)
    requires Identifier(name) && !Contains(text, Close(name))
    ensures Replace(text + Close(name), Close(name), "") == text
  {
    var c := Close(name);
    TagTokens(name);
    ReplaceAppend(text, c, c, "");
    ReplaceSelf(c, "");
    assert text + "" == text;
  }

  // ---------------------------------------------------------------------------
  // One property's chunk read back

  /** A value the codec writes and restores: not null, and a string without
      the markers the decoder splits at or strips. */
  predicate Storable(f: Field, v: Value) {
    Identifier(f.name) && WellFormedKind(f.kind) && WellTyped(f.kind, v) && !v.NullV? &&
    (v.StrV? ==> Restorable(f.name, v.s))
  }

  /** Ints, bools and enums render without '<' and without line breaks. */
  lemma RenderPlain(k: Kind, v: Value)
    requires WellFormedKind(k) && WellTyped(k, v) && !v.StrV? && !v.NullV?
    ensures '<' !in Render(k, v).value && BreakFree(Render(k, v).value)
  {
    var t := Render(k, v).value;
    if v.EnumV? && 0 <= v.ordinal < |k.symbols| {
      assert Identifier(k.symbols[v.ordinal]);
      assert forall c :: c in t ==> IdentChar(c);
    } else if v.IntV? || v.EnumV? {
      assert forall c :: c in t ==> c == '-' || IsDigit(c);
    }
  }

  /** The text of a storable value holds none of the markers: no separator, none
      of its property's tags, and no "\n" (it is escaped). */
  lemma FieldTextClean(f: Field, v: Value)
    requires Storable(f, v)
    ensures var t := FieldText(f, v).value;
      !Contains(t, Sep) && !Contains(t, Open(f.name)) && !Contains(t, Close(f.name)) && '\n' !in t
  {
    TagTokens(f.name);
    TagsDiffer(f.name);
    if v.StrV? {
      EscapedKeepsOut(v.s, Sep);
      EscapedKeepsOut(v.s, Open(f.name));
      EscapedKeepsOut(v.s, Close(f.name));
      ReplaceRemovesChar(v.s, '\n', Break);
    } else {
      var t := FieldText(f, v).value;
      RenderPlain(f.kind, v);
      NoAngleNoToken(t, Sep);
      NoAngleNoToken(t, Open(f.name));
      NoAngleNoToken(t, Close(f.name));
    }
  }

  /** Escaping the line breaks of a string introduces no marker other than
      the break sentinel. */
  lemma EscapedKeepsOut(s: string, p: string)
    requires Token(p) && Token(Break) && p != Break && !Contains(s, p)
    ensures !Contains(Replace(s, "\n", Break), p)
  {
    TokenFree(Break, p);
    ReplaceCharKeepsAbsent(s, '\n', Break, p);
  }

  /** The first member with a given name is found at its own position. */
  lemma SymbolFound(symbols: seq<string>, o: nat)
    requires o < |symbols| && DistinctNames(symbols)
    ensures IndexOfSymbol(symbols, symbols[o]) == Some(o)
  {
  }

  /** `Enum.Parse` of a declared member's name gives that member. */
  lemma ParseEnumName(symbols: seq<string>, o: nat)
    requires WellFormedKind(EnumKind(symbols)) && o < |symbols|
    ensures ParseEnum(symbols, symbols[o]) == Some(o)
  {
    assert Identifier(symbols[o]);
    SymbolFound(symbols, o);
  }

  /** A chunk written for a storable value is read back as that value. */
  lemma ReadFieldRoundTrip(f: Field, v: Value)
    requires Storable(f, v)
    ensures ReadField(f, Chunk(f.name, FieldText(f, v).value)) == Ok(v)
  {
    var t := FieldText(f, v).value;
    FieldTextClean(f, v);
    StripTags(f.name, t);
    match f.kind
    case StrKind =>
      TagTokens(f.name);
      UnescapeEscape(v.s, '\n', Break);
    case IntKind =>
      IntRoundTrip(v.i);
    case BoolKind =>
    case EnumKind(symbols) =>
      if 0 <= v.ordinal < |symbols| {
        ParseEnumName(symbols, v.ordinal);
      } else {
        IntRoundTrip(v.ordinal);
      }
  }
}
