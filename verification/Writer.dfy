/**
  Writing events for replay: writeAPMEvents. The methods rewrite field by field into a token buffer
  with a shared scratch buffer; the functions say what tree comes out; the lemmas say what the
  rewriting keeps.
*/
module Writer {
  import opened Basics
  import opened Randomize
  import opened Json
  import opened Events
  import Timestamps

  datatype StackVersion = Unknown | Latest | Generic7x

  datatype Flags = Flags(
    timestamps: bool,
    ids: bool,
    serviceNames: bool,
    serviceNodeNames: bool,
    serviceTargetNames: bool,
    spanNames: bool,
    transactionNames: bool,
    transactionTypes: bool,
    version: StackVersion)

  /** What all events of a pass are rewritten with: the earliest time that loading found, and the
      current time and the random bits at the start of the pass. */
  datatype Context = Context(minTimestamp: int, base: int, bits: bv64)

  /** A line as it was loaded, or a rewritten one. */
  datatype OutLine = Copied(line: Line) | Rewritten(tokens: seq<Token>)

  function TreeOfTokens(tokens: seq<Token>): Value {
    match ParseValue(tokens)
    case Some((v, _)) => v
    case None => Other("")
  }

  /** The tree that a reader finds in a written line. */
  function TreeIn(parser: Parser, l: OutLine): Value {
    match l
    case Copied(line) => TreeOf(parser, line)
    case Rewritten(tokens) => TreeOfTokens(tokens)
  }

  lemma TokensReadBack(v: Value)
    ensures ParseValue(Tokens(v)) == Some((v, [])) && TreeOfTokens(Tokens(v)) == v
  {
    hide Tokens;
    ReadsBack(v, []);
    assert Tokens(v) + [] == Tokens(v);
  }

  /** An event line {"objectType": body}, with the time found at loading. */
  datatype JsonEvent = JsonEvent(objectType: string, body: Value, timestamp: int)

  function JsonOf(parser: Parser, e: Event): JsonEvent {
    JsonEvent(e.objectType, parser(e.payload).body, e.timestamp)
  }

  function FieldsOf(v: Value): seq<Field> {
    if v.Object? then v.fields else []
  }

  function PayloadOf(e: JsonEvent): Value {
    Object([Field(e.objectType, e.body)])
  }

  predicate EventFlags(fl: Flags) {
    fl.timestamps || fl.ids || fl.serviceTargetNames || fl.spanNames || fl.transactionNames || fl.transactionTypes
  }

  predicate RewriteAny(fl: Flags) {
    EventFlags(fl) || fl.serviceNames || fl.serviceNodeNames
  }

  // ---------------------------------------------------------------- the rewritten tree

  const ID_KEYS: set<string> := {"id", "parent_id", "trace_id", "transaction_id"}

  const TARGET_NAME: seq<string> := ["service", "target", "name"]

  function Randomized(v: Value, bits: bv64): Value {
    String(RandomText(StrOf(v), bits))
  }

  function NewTime(fl: Flags, time: int, c: Context): Value {
    match fl.version
    case Generic7x => Micros(Timestamps.Rewrite7x(time, c.minTimestamp, c.base))
    case _ => Instant(Timestamps.RewriteLatest(time, c.minTimestamp, c.base))
  }

  function NewId(fl: Flags, v: Value, bits: bv64): Value {
    if fl.ids && IsHex(StrOf(v)) then String(Cipher(StrOf(v), bits)) else v
  }

  predicate NameRewritten(fl: Flags, objectType: string) {
    (fl.spanNames && objectType == "span") || (fl.transactionNames && objectType == "transaction")
  }

  /** The values on the way along the path are objects; reading fields of anything else is the JSON
      library's business. */
  predicate ObjectsAlong(path: seq<string>, v: Value)
    decreases |path|
  {
    path != [] ==>
      && v.Object?
      && forall i :: 0 <= i < |v.fields| && v.fields[i].key == path[0] ==>
           ObjectsAlong(path[1..], v.fields[i].value)
  }

  function NewFieldsAlong(path: seq<string>, fs: seq<Field>, bits: bv64, n: nat): (r: seq<Field>)
    requires path != [] && n <= |fs|
    ensures |r| == n
    ensures forall i :: 0 <= i < n ==> r[i] == NewAlongField(path, fs[i], bits)
    decreases |path|, 0, n + 1
  {
    if n == 0 then [] else NewFieldsAlong(path, fs, bits, n - 1) + [NewAlongField(path, fs[n - 1], bits)]
  }

  /** The value with every string at the end of the path randomized. */
  function NewAlong(path: seq<string>, v: Value, bits: bv64): (r: Value)
    decreases |path|, 1
  {
    if path == [] then Randomized(v, bits)
    else if v.Object? then Object(NewFieldsAlong(path, v.fields, bits, |v.fields|))
    else v
  }

  /** A field on the path goes on with the rest of the path; any other is copied. */
  function NewAlongField(path: seq<string>, f: Field, bits: bv64): Field
    requires path != []
    decreases |path|, 0, 0
  {
    if f.key == path[0] then Field(f.key, NewAlong(path[1..], f.value, bits)) else f
  }

  /** A field that can be rewritten: its context, if that is to be rewritten, is an object. */
  predicate ValidField(fl: Flags, f: Field) {
    f.key == "context" && fl.serviceTargetNames ==> ObjectsAlong(TARGET_NAME, f.value)
  }

  predicate ValidEvent(fl: Flags, e: JsonEvent) {
    RewriteAny(fl) ==> e.body.Object? && forall i :: 0 <= i < |e.body.fields| ==> ValidField(fl, e.body.fields[i])
  }

  predicate Writable(fl: Flags, parser: Parser, es: seq<Event>) {
    forall i :: 0 <= i < |es| ==> ValidEvent(fl, JsonOf(parser, es[i]))
  }

  function NewField(fl: Flags, e: JsonEvent, c: Context, f: Field): Value {
    if f.key == "timestamp" then
      if fl.timestamps && e.timestamp != ZERO_TIME then NewTime(fl, e.timestamp, c) else f.value
    else if f.key in ID_KEYS then NewId(fl, f.value, c.bits)
    else if f.key == "name" then
      if NameRewritten(fl, e.objectType) then Randomized(f.value, c.bits) else f.value
    else if f.key == "type" then
      if fl.transactionTypes && e.objectType == "transaction" then Randomized(f.value, c.bits) else f.value
    else if f.key == "context" then
      if fl.serviceTargetNames then NewAlong(TARGET_NAME, f.value, c.bits) else f.value
    else f.value
  }

  function NewFields(fl: Flags, e: JsonEvent, c: Context, n: nat): (fs: seq<Field>)
    requires n <= |FieldsOf(e.body)|
    ensures |fs| == n
    ensures var fields := FieldsOf(e.body);
            forall i :: 0 <= i < n ==> fs[i] == Field(fields[i].key, NewField(fl, e, c, fields[i]))
  {
    if n == 0 then []
    else
      var f := FieldsOf(e.body)[n - 1];
      NewFields(fl, e, c, n - 1) + [Field(f.key, NewField(fl, e, c, f))]
  }

  function NewBody(fl: Flags, e: JsonEvent, c: Context): Value {
    Object(NewFields(fl, e, c, |FieldsOf(e.body)|))
  }

  /** The tree of the line written for an event. */
  function NewPayload(fl: Flags, e: JsonEvent, c: Context): Value {
    if RewriteAny(fl) then Object([Field(e.objectType, NewBody(fl, e, c))]) else PayloadOf(e)
  }

  // Metadata: a path lookup takes the first field of a name, and setting replaces its value.

  function FieldIndex(fs: seq<Field>, key: string): (i: nat)
    ensures i <= |fs|
    ensures i < |fs| ==> fs[i].key == key
    ensures forall j :: 0 <= j < i ==> fs[j].key != key
  {
    if fs == [] || fs[0].key == key then 0 else 1 + FieldIndex(fs[1..], key)
  }

  function GetPath(v: Value, path: seq<string>): Option<Value>
    decreases |path|, 0
  {
    if path == [] then Some(v)
    else if !v.Object? then None
    else
      var i := FieldIndex(v.fields, path[0]);
      if i == |v.fields| then None else GetPath(v.fields[i].value, path[1..])
  }

  function SetPath(v: Value, path: seq<string>, x: Value): (r: Value)
    requires GetPath(v, path).Some?
    decreases |path|
  {
    if path == [] then x
    else
      var i := FieldIndex(v.fields, path[0]);
      Object(v.fields[i := Field(path[0], SetPath(v.fields[i].value, path[1..], x))])
  }

  const SERVICE_NAME: seq<string> := ["metadata", "service", "name"]

  const SERVICE_NODE_NAME: seq<string> := ["metadata", "service", "node", "configured_name"]

  function NewAtPath(v: Value, path: seq<string>, bits: bv64): Value {
    match GetPath(v, path)
    case None => v
    case Some(found) => SetPath(v, path, Randomized(found, bits))
  }

  function NewMetadata(fl: Flags, metadata: Value, bits: bv64): Value {
    var named := if fl.serviceNames then NewAtPath(metadata, SERVICE_NAME, bits) else metadata;
    if fl.serviceNodeNames then NewAtPath(named, SERVICE_NODE_NAME, bits) else named
  }

  // ---------------------------------------------------------------- the written lines

  /** A metadata line without the path stays as it is, byte by byte. */
  function RandomizedAt(parser: Parser, data: OutLine, path: seq<string>, bits: bv64): OutLine {
    var tree := TreeIn(parser, data);
    match GetPath(tree, path)
    case None => data
    case Some(found) => Rewritten(Tokens(SetPath(tree, path, Randomized(found, bits))))
  }

  function MetadataLine(fl: Flags, parser: Parser, metadata: Line, bits: bv64): OutLine {
    var named := if fl.serviceNames then RandomizedAt(parser, Copied(metadata), SERVICE_NAME, bits)
                 else Copied(metadata);
    if fl.serviceNodeNames then RandomizedAt(parser, named, SERVICE_NODE_NAME, bits) else named
  }

  function EventLine(fl: Flags, parser: Parser, e: Event, c: Context): OutLine {
    if RewriteAny(fl) then Rewritten(Tokens(NewPayload(fl, JsonOf(parser, e), c))) else Copied(e.payload)
  }

  function EventLines(fl: Flags, parser: Parser, es: seq<Event>, c: Context): (lines: seq<OutLine>)
    ensures |lines| == |es|
    ensures forall i :: 0 <= i < |es| ==> lines[i] == EventLine(fl, parser, es[i], c)
  {
    seq(|es|, i requires 0 <= i < |es| => EventLine(fl, parser, es[i], c))
  }

  /** What is written for a batch: its metadata, then its events. */
  function BatchLines(fl: Flags, parser: Parser, b: Batch, c: Context): seq<OutLine> {
    [MetadataLine(fl, parser, b.metadata, c.bits)] + EventLines(fl, parser, b.events, c)
  }

  /** A reader of the line written for an event finds the rewritten tree. */
  lemma EventLineTree(fl: Flags, parser: Parser, e: Event, c: Context)
    requires e.objectType == parser(e.payload).objectType
    ensures TreeIn(parser, EventLine(fl, parser, e, c)) == NewPayload(fl, JsonOf(parser, e), c)
  {
    hide TreeOfTokens, Tokens, NewBody;
    TokensReadBack(NewPayload(fl, JsonOf(parser, e), c));
  }

  lemma RandomizedAtTree(parser: Parser, data: OutLine, path: seq<string>, bits: bv64)
    ensures TreeIn(parser, RandomizedAt(parser, data, path, bits)) == NewAtPath(TreeIn(parser, data), path, bits)
  {
    hide TreeOfTokens, Tokens, GetPath, SetPath, Randomized;
    var tree := TreeIn(parser, data);
    if GetPath(tree, path).Some? {
      TokensReadBack(SetPath(tree, path, Randomized(GetPath(tree, path).value, bits)));
    }
  }

  lemma MetadataLineTree(fl: Flags, parser: Parser, metadata: Line, bits: bv64)
    ensures TreeIn(parser, MetadataLine(fl, parser, metadata, bits)) == NewMetadata(fl, TreeOf(parser, metadata), bits)
  {
    hide TreeOfTokens, Tokens, NewAtPath, RandomizedAt, TreeOf;
    var named := if fl.serviceNames then RandomizedAt(parser, Copied(metadata), SERVICE_NAME, bits)
                 else Copied(metadata);
    RandomizedAtTree(parser, Copied(metadata), SERVICE_NAME, bits);
    RandomizedAtTree(parser, named, SERVICE_NODE_NAME, bits);
  }

  // ---------------------------------------------------------------- the imperative form

  class TokenBuffer {
    var data: seq<Token>

    constructor ()
      ensures data == []
    {
      data := [];
    }

    method Append(ts: seq<Token>)
      modifies this
      ensures data == old(data) + ts
    {
      data := data + ts;
    }

    method Clear()
      modifies this
      ensures data == []
    {
      data := [];
    }
  }

  class EventWriter {
    const rewriteBuf: TokenBuffer
    const idBuf: Buffer
    var lines: seq<OutLine>

    constructor ()
      ensures fresh(rewriteBuf) && fresh(idBuf)
      ensures rewriteBuf.data == [] && idBuf.data == [] && lines == []
    {
      rewriteBuf := new TokenBuffer();
      idBuf := new Buffer();
      lines := [];
    }

    method WriteLine(l: OutLine)
      modifies this
      ensures lines == old(lines) + [l]
    {
      lines := lines + [l];
    }

    /** Writes a comma before every field but the first, the key and a colon. */
    method WriteKey(first: bool, key: string)
      modifies rewriteBuf
      ensures rewriteBuf.data == old(rewriteBuf.data) + (if first then [] else [Comma]) + [Token.Key(key), Colon]
    {
      if !first {
        rewriteBuf.Append([Comma]);
      }
      rewriteBuf.Append([Token.Key(key)]);
      rewriteBuf.Append([Colon]);
    }

    method WriteRandomized(v: Value, bits: bv64)
      requires idBuf.data == []
      modifies rewriteBuf, idBuf
      ensures rewriteBuf.data == old(rewriteBuf.data) + Tokens(Randomized(v, bits)) && idBuf.data == []
    {
      RandomizeASCII(idBuf, StrOf(v), bits);
      assert idBuf.data == RandomText(StrOf(v), bits);
      rewriteBuf.Append([Leaf(String(idBuf.data))]);
      idBuf.Clear();
    }

    /** The nested rewriting of the objects along a path. */
    method WriteAlong(path: seq<string>, v: Value, bits: bv64)
      requires path != [] && ObjectsAlong(path, v) && idBuf.data == []
      modifies rewriteBuf, idBuf
      ensures rewriteBuf.data == old(rewriteBuf.data) + Tokens(NewAlong(path, v, bits)) && idBuf.data == []
      decreases |path|, 1
    {
      hide Tokens, FieldTokens, NewFieldsAlong, NewAlong;
      rewriteBuf.Append([OpenBrace]);
      NoFieldsAlong(path, v.fields, bits);
      ghost var done: seq<Token> := [];
      for i := 0 to |v.fields|
        invariant idBuf.data == [] && done == FieldTokens(NewFieldsAlong(path, v.fields, bits, i))
        invariant rewriteBuf.data == old(rewriteBuf.data) + ([OpenBrace] + done)
      {
        ghost var before := NewFieldsAlong(path, v.fields, bits, i);
        var f := v.fields[i];
        ghost var next := NewAlongField(path, f, bits);
        NewFieldsAlongStep(path, v.fields, bits, i);
        FieldAppended(before, next);
        WriteFieldAlong(path, i == 0, f, bits);
        done := done + NextTokens(i == 0, next);
      }
      rewriteBuf.Append([CloseBrace]);
      NewAlongObject(path, v, bits);
      ObjectTokens(NewFieldsAlong(path, v.fields, bits, |v.fields|));
    }

    method WriteFieldAlong(path: seq<string>, first: bool, f: Field, bits: bv64)
      requires path != [] && idBuf.data == []
      requires f.key == path[0] ==> ObjectsAlong(path[1..], f.value)
      modifies rewriteBuf, idBuf
      ensures rewriteBuf.data == old(rewriteBuf.data) + NextTokens(first, NewAlongField(path, f, bits))
      ensures idBuf.data == []
      decreases |path|, 0
    {
      hide Tokens, FieldTokens, NewFieldsAlong, NewAlong;
      WriteKey(first, f.key);
      if f.key != path[0] {
        rewriteBuf.Append(Tokens(f.value));
      } else if |path| == 1 {
        assert path[1..] == [];
        WriteRandomized(f.value, bits);
        NewAlongEnd(f.value, bits);
      } else {
        WriteAlong(path[1..], f.value, bits);
      }
    }

    /** Writes one field of an event, after its key. */
    method WriteField(fl: Flags, e: JsonEvent, c: Context, f: Field)
      requires ValidField(fl, f) && idBuf.data == []
      modifies rewriteBuf, idBuf
      ensures rewriteBuf.data == old(rewriteBuf.data) + Tokens(NewField(fl, e, c, f)) && idBuf.data == []
    {
      hide RandomText, NewAlong, Cipher, ObjectsAlong;
      if f.key == "timestamp" {
        if fl.timestamps && e.timestamp != ZERO_TIME {
          rewriteBuf.Append([Leaf(NewTime(fl, e.timestamp, c))]);
        } else {
          rewriteBuf.Append(Tokens(f.value));
        }
      } else if f.key in ID_KEYS {
        var rewritten := false;
        if fl.ids {
          rewritten := RandomizeTraceID(idBuf, StrOf(f.value), c.bits);
          assert rewritten ==> idBuf.data == Cipher(StrOf(f.value), c.bits);
        }
        if rewritten {
          rewriteBuf.Append([Leaf(String(idBuf.data))]);
          idBuf.Clear();
        } else {
          rewriteBuf.Append(Tokens(f.value));
        }
      } else if f.key == "name" {
        RandomizeASCII(idBuf, StrOf(f.value), c.bits);
        assert idBuf.data == RandomText(StrOf(f.value), c.bits);
        if fl.spanNames && e.objectType == "span" {
          rewriteBuf.Append([Leaf(String(idBuf.data))]);
        } else if fl.transactionNames && e.objectType == "transaction" {
          rewriteBuf.Append([Leaf(String(idBuf.data))]);
        } else {
          rewriteBuf.Append(Tokens(f.value));
        }
        idBuf.Clear();
      } else if f.key == "type" {
        if fl.transactionTypes && e.objectType == "transaction" {
          WriteRandomized(f.value, c.bits);
        } else {
          rewriteBuf.Append(Tokens(f.value));
        }
      } else if f.key == "context" {
        if !fl.serviceTargetNames {
          rewriteBuf.Append(Tokens(f.value));
        } else {
          WriteAlong(TARGET_NAME, f.value, c.bits);
        }
      } else {
        rewriteBuf.Append(Tokens(f.value));
      }
    }

    /** The rewriting of the object that an event consists of. */
    method WriteBody(fl: Flags, e: JsonEvent, c: Context)
      requires ValidEvent(fl, e) && RewriteAny(fl) && idBuf.data == []
      modifies rewriteBuf, idBuf
      ensures rewriteBuf.data == old(rewriteBuf.data) + Tokens(NewBody(fl, e, c)) && idBuf.data == []
    {
      hide Tokens, FieldTokens, NewField, ValidField;
      rewriteBuf.Append([OpenBrace]);
      var fs := e.body.fields;
      NoFieldTokens();
      ghost var done: seq<Token> := [];
      for i := 0 to |fs|
        invariant idBuf.data == [] && done == FieldTokens(NewFields(fl, e, c, i))
        invariant rewriteBuf.data == old(rewriteBuf.data) + ([OpenBrace] + done)
      {
        ghost var next := Field(fs[i].key, NewField(fl, e, c, fs[i]));
        FieldAppended(NewFields(fl, e, c, i), next);
        WriteKey(i == 0, fs[i].key);
        WriteField(fl, e, c, fs[i]);
        done := done + NextTokens(i == 0, next);
      }
      rewriteBuf.Append([CloseBrace]);
      ObjectTokens(NewFields(fl, e, c, |fs|));
    }

    /** Writes one line, which reads back as the rewritten tree and nothing else. */
    method WriteEvent(fl: Flags, e: JsonEvent, c: Context)
      requires ValidEvent(fl, e) && RewriteAny(fl)
      requires rewriteBuf.data == [] && idBuf.data == []
      modifies this, rewriteBuf, idBuf
      ensures lines == old(lines) + [Rewritten(Tokens(NewPayload(fl, e, c)))]
      ensures ParseValue(lines[|old(lines)|].tokens) == Some((NewPayload(fl, e, c), []))
      ensures rewriteBuf.data == [] && idBuf.data == []
    {
      hide Tokens, FieldTokens, NewFields, ValidField, ParseValue, TreeOfTokens;
      rewriteBuf.Append([OpenBrace]);
      rewriteBuf.Append([Token.Key(e.objectType), Colon]);
      WriteBody(fl, e, c);
      rewriteBuf.Append([CloseBrace]);
      EventTokens(e.objectType, NewBody(fl, e, c));
      assert rewriteBuf.data == Tokens(NewPayload(fl, e, c));
      TokensReadBack(NewPayload(fl, e, c));
      WriteLine(Rewritten(rewriteBuf.data));
      rewriteBuf.Clear();
    }

    method RandomizeASCIIField(parser: Parser, data: OutLine, path: seq<string>, bits: bv64) returns (r: OutLine)
      requires idBuf.data == []
      modifies idBuf
      ensures r == RandomizedAt(parser, data, path, bits) && idBuf.data == []
    {
      hide Tokens, RandomText, GetPath, SetPath, TreeIn;
      var tree := TreeIn(parser, data);
      var result := GetPath(tree, path);
      if result.None? { return data; }
      RandomizeASCII(idBuf, StrOf(result.value), bits);
      assert idBuf.data == RandomText(StrOf(result.value), bits);
      r := Rewritten(Tokens(SetPath(tree, path, String(idBuf.data))));
      idBuf.Clear();
    }

    /** Writes one line for the metadata and one for each event. The scratch buffer is empty before
        every field, and both buffers before every event. */
    method WriteAPMEvents(fl: Flags, parser: Parser, b: Batch, c: Context)
      requires Writable(fl, parser, b.events)
      requires rewriteBuf.data == [] && idBuf.data == []
      modifies this, rewriteBuf, idBuf
      ensures lines == old(lines) + BatchLines(fl, parser, b, c)
      ensures rewriteBuf.data == [] && idBuf.data == []
    {
      hide Tokens, RandomizedAt, ValidEvent, ParseValue, JsonOf, NewPayload;
      var rewriteAny := RewriteAny(fl);
      var metadata := Copied(b.metadata);
      if fl.serviceNames {
        metadata := RandomizeASCIIField(parser, metadata, SERVICE_NAME, c.bits);
      }
      if fl.serviceNodeNames {
        metadata := RandomizeASCIIField(parser, metadata, SERVICE_NODE_NAME, c.bits);
      }
      WriteLine(metadata);
      ghost var all := EventLines(fl, parser, b.events, c);
      for i := 0 to |b.events|
        invariant rewriteBuf.data == [] && idBuf.data == []
        invariant lines == old(lines) + [MetadataLine(fl, parser, b.metadata, c.bits)] + all[..i]
      {
        if !rewriteAny {
          WriteLine(Copied(b.events[i].payload));
          continue;
        }
        WriteEvent(fl, JsonOf(parser, b.events[i]), c);
      }
    }
  }

  // Tokens of what the loops build.

  lemma NewAlongEnd(v: Value, bits: bv64)
    ensures NewAlong([], v, bits) == Randomized(v, bits)
  {
  }

  lemma NewAlongObject(path: seq<string>, v: Value, bits: bv64)
    requires path != [] && v.Object?
    ensures NewAlong(path, v, bits) == Object(NewFieldsAlong(path, v.fields, bits, |v.fields|))
  {
  }

  lemma NoFieldTokens()
    ensures FieldTokens([]) == []
  {
  }

  lemma NoFieldsAlong(path: seq<string>, fs: seq<Field>, bits: bv64)
    requires path != []
    ensures FieldTokens(NewFieldsAlong(path, fs, bits, 0)) == []
  {
  }

  lemma NewFieldsAlongStep(path: seq<string>, fs: seq<Field>, bits: bv64, i: nat)
    requires path != [] && i < |fs|
    ensures NewFieldsAlong(path, fs, bits, i + 1)
         == NewFieldsAlong(path, fs, bits, i) + [NewAlongField(path, fs[i], bits)]
  {
  }

  function NextTokens(first: bool, f: Field): seq<Token> {
    (if first then [] else [Comma]) + [Token.Key(f.key), Colon] + Tokens(f.value)
  }

  lemma FieldAppended(before: seq<Field>, f: Field)
    ensures FieldTokens(before + [f]) == FieldTokens(before) + NextTokens(before == [], f)
  {
  }

  lemma ObjectTokens(fs: seq<Field>)
    ensures Tokens(Object(fs)) == [OpenBrace] + FieldTokens(fs) + [CloseBrace]
  {
  }

  lemma EventTokens(objectType: string, body: Value)
    ensures Tokens(Object([Field(objectType, body)]))
         == [OpenBrace] + [Token.Key(objectType), Colon] + Tokens(body) + [CloseBrace]
  {
    hide Tokens, FieldTokens;
    var f := Field(objectType, body);
    NoFieldTokens();
    FieldAppended([], f);
    assert [] + [f] == [f];
    ObjectTokens([f]);
  }
}
