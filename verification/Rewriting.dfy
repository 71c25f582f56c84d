/** What rewriting keeps: the shape of events, everything that is not targeted, and which IDs are
    the same. */
module Rewriting {
  import opened Basics
  import opened Randomize
  import opened Json
  import opened Writer
  import Events

  // ---------------------------------------------------------------- trees

  /** The node that a list of field positions leads to. */
  function NodeAt(v: Value, at: seq<nat>): Option<Value>
    decreases |at|
  {
    if at == [] then Some(v)
    else if v.Object? && at[0] < |v.fields| then NodeAt(v.fields[at[0]].value, at[1..])
    else None
  }

  /** The keys on the way to a node. */
  function KeysTo(v: Value, at: seq<nat>): (keys: seq<string>)
    requires NodeAt(v, at).Some?
    ensures |keys| == |at|
    decreases |at|
  {
    if at == [] then [] else [v.fields[at[0]].key] + KeysTo(v.fields[at[0]].value, at[1..])
  }

  function KeysOf(v: Value): seq<string>
    requires v.Object?
  {
    seq(|v.fields|, i requires 0 <= i < |v.fields| => v.fields[i].key)
  }

  predicate Prefix(a: seq<string>, b: seq<string>) {
    a <= b
  }

  /** Neither list goes on where the other ends. */
  predicate Apart(a: seq<string>, b: seq<string>) {
    !Prefix(a, b) && !Prefix(b, a)
  }

  lemma PrefixOfCons(a: seq<string>, b: seq<string>)
    requires a != [] && b != [] && a[0] == b[0]
    ensures Prefix(a, b) <==> Prefix(a[1..], b[1..])
    ensures a == b <==> a[1..] == b[1..]
  {
    if a[1..] <= b[1..] {
      assert a == [a[0]] + a[1..] && b == [b[0]] + b[1..];
    }
  }

  /** Rewriting along a path touches exactly the nodes whose keys are the path. Every node is found
      again in the same place; off the path it is the same, and on the way it is an object with the
      same keys in the same order. */
  lemma {:induction false} AlongTouchesOnlyThePath(path: seq<string>, v: Value, bits: bv64, at: seq<nat>)
    requires ObjectsAlong(path, v) && NodeAt(v, at).Some?
    ensures var w := NewAlong(path, v, bits);
            var keys, node := KeysTo(v, at), NodeAt(v, at).value;
            && (keys == path ==> NodeAt(w, at) == Some(Randomized(node, bits)))
            && (Apart(keys, path) ==> NodeAt(w, at) == Some(node))
            && (Prefix(keys, path) && keys != path ==>
                  && node.Object? && NodeAt(w, at).Some? && NodeAt(w, at).value.Object?
                  && KeysOf(NodeAt(w, at).value) == KeysOf(node))
    decreases |path|
  {
    hide Randomized;
    if path == [] {
      assert Prefix(path, KeysTo(v, at));
    } else {
      NewAlongObject(path, v, bits);
      var w := NewAlong(path, v, bits);
      if at == [] {
        assert KeysOf(w) == KeysOf(v);
      } else {
        var f := v.fields[at[0]];
        assert w.fields[at[0]] == NewAlongField(path, f, bits);
        var keys := KeysTo(v, at);
        assert keys[0] == f.key && keys[1..] == KeysTo(f.value, at[1..]);
        if f.key == path[0] {
          AlongTouchesOnlyThePath(path[1..], f.value, bits, at[1..]);
          PrefixOfCons(keys, path);
          PrefixOfCons(path, keys);
        }
      }
    }
  }

  // ---------------------------------------------------------------- events

  /** The fields of an event that the flags select. */
  predicate Targeted(fl: Flags, e: JsonEvent, key: string) {
    || (key == "timestamp" && fl.timestamps && e.timestamp != Events.ZERO_TIME)
    || (key in {"id", "parent_id", "trace_id", "transaction_id"} && fl.ids)
    || (key == "name" && fl.spanNames && e.objectType == "span")
    || (key == "name" && fl.transactionNames && e.objectType == "transaction")
    || (key == "type" && fl.transactionTypes && e.objectType == "transaction")
    || (key == "context" && fl.serviceTargetNames)
  }

  /** The fields of the object under the object type in the line written for an event. */
  function WrittenFields(fl: Flags, e: JsonEvent, c: Context): seq<Field> {
    var fields := FieldsOf(NewPayload(fl, e, c));
    if fields == [] then [] else FieldsOf(fields[0].value)
  }

  lemma WrittenFieldsAre(fl: Flags, e: JsonEvent, c: Context)
    requires e.body.Object?
    ensures NewPayload(fl, e, c) == Object([Field(e.objectType, Object(WrittenFields(fl, e, c)))])
    ensures WrittenFields(fl, e, c) == if RewriteAny(fl) then NewBody(fl, e, c).fields else e.body.fields
  {
    hide RewriteAny;
    assert Object(e.body.fields) == e.body;
  }

  lemma UntargetedField(fl: Flags, e: JsonEvent, c: Context, f: Field)
    requires !Targeted(fl, e, f.key)
    ensures NewField(fl, e, c, f) == f.value
  {
    hide NewTime, NewAlong, Randomized;
  }

  /** An event keeps its object type and its keys in their order, and every field that is not
      targeted keeps its value. */
  lemma RewritingKeepsTheRest(fl: Flags, e: JsonEvent, c: Context)
    requires e.body.Object?
    ensures NewPayload(fl, e, c) == Object([Field(e.objectType, Object(WrittenFields(fl, e, c)))])
    ensures KeysOf(Object(WrittenFields(fl, e, c))) == KeysOf(e.body)
    ensures forall i :: 0 <= i < |e.body.fields| && !Targeted(fl, e, e.body.fields[i].key) ==>
              WrittenFields(fl, e, c)[i] == e.body.fields[i]
  {
    hide NewTime, NewId, NewAlong, Randomized, NewPayload, WrittenFields, RewriteAny, Targeted;
    WrittenFieldsAre(fl, e, c);
    forall i | 0 <= i < |e.body.fields| && !Targeted(fl, e, e.body.fields[i].key)
      ensures NewBody(fl, e, c).fields[i] == e.body.fields[i]
    {
      UntargetedField(fl, e, c, e.body.fields[i]);
    }
  }

  /** With all event-level flags off every event is written as it was, also when the metadata is
      rewritten. */
  lemma NoEventFlagsIsIdentity(fl: Flags, e: JsonEvent, c: Context)
    requires e.body.Object? && !EventFlags(fl)
    ensures NewPayload(fl, e, c) == PayloadOf(e)
  {
    hide NewPayload, WrittenFields;
    RewritingKeepsTheRest(fl, e, c);
    var fields := WrittenFields(fl, e, c);
    assert |KeysOf(Object(fields))| == |e.body.fields|;
    forall i | 0 <= i < |e.body.fields|
      ensures fields[i] == e.body.fields[i]
    {
      assert !Targeted(fl, e, e.body.fields[i].key);
    }
    assert fields == e.body.fields;
  }

  // ---------------------------------------------------------------- IDs

  /** What rewriting can tell apart of an ID value: hexadecimal text up to case, with any value that
      is not a string counting as the empty text, and other text as it is. */
  function Canonical(v: Value): Value {
    if IsHex(StrOf(v)) then String(Lower(StrOf(v))) else v
  }

  lemma LowerIsHex(s: Bytes)
    requires IsHex(s)
    ensures IsHex(Lower(s)) && Lower(Lower(s)) == Lower(s)
  {
  }

  /** Two ID values are rewritten alike exactly when their canonical forms are the same. */
  lemma SameAfterIffSameBefore(fl: Flags, v: Value, w: Value, bits: bv64)
    requires fl.ids
    ensures NewId(fl, v, bits) == NewId(fl, w, bits) <==> Canonical(v) == Canonical(w)
  {
    hide Cipher, Lower, IsHex;
    var s, t := StrOf(v), StrOf(w);
    if IsHex(s) { CipherTwice(s, bits); LowerIsHex(s); }
    if IsHex(t) { CipherTwice(t, bits); LowerIsHex(t); }
    if IsHex(s) && IsHex(t) {
      CipherInjective(s, t, bits);
    }
  }

  /** For strings the canonical forms are the same exactly when the IDs are, up to the case of
      hexadecimal IDs. */
  lemma CanonicalOfStrings(s: Bytes, t: Bytes)
    ensures Canonical(String(s)) == Canonical(String(t)) <==> s == t || (IsHex(s) && IsHex(t) && Lower(s) == Lower(t))
  {
    hide Lower, IsHex;
    if IsHex(s) { LowerIsHex(s); }
    if IsHex(t) { LowerIsHex(t); }
  }

  lemma IdField(fl: Flags, e: JsonEvent, c: Context, f: Field)
    requires f.key in ID_KEYS
    ensures NewField(fl, e, c, f) == NewId(fl, f.value, c.bits)
  {
  }

  /** The rewriting keeps the trace graph. Take any two ID fields of any two events of one pass,
      which share the random bits: if both are strings, they are equal after rewriting exactly when
      they were equal before, up to the case of hexadecimal IDs. */
  lemma TraceGraphKept(fl: Flags, c: Context, e: JsonEvent, i: nat, d: JsonEvent, j: nat)
    requires fl.ids && e.body.Object? && d.body.Object?
    requires i < |e.body.fields| && e.body.fields[i].key in {"id", "parent_id", "trace_id", "transaction_id"}
    requires j < |d.body.fields| && d.body.fields[j].key in {"id", "parent_id", "trace_id", "transaction_id"}
    requires e.body.fields[i].value.String? && d.body.fields[j].value.String?
    ensures var s, t := e.body.fields[i].value.text, d.body.fields[j].value.text;
            && |WrittenFields(fl, e, c)| == |e.body.fields| && |WrittenFields(fl, d, c)| == |d.body.fields|
            && (WrittenFields(fl, e, c)[i].value == WrittenFields(fl, d, c)[j].value
                <==> s == t || (IsHex(s) && IsHex(t) && Lower(s) == Lower(t)))
  {
    hide NewId, NewField, Canonical, IsHex, Lower, NewPayload, WrittenFields;
    WrittenFieldsAre(fl, e, c);
    WrittenFieldsAre(fl, d, c);
    var f, g := e.body.fields[i], d.body.fields[j];
    IdField(fl, e, c, f);
    IdField(fl, d, c, g);
    SameAfterIffSameBefore(fl, f.value, g.value, c.bits);
    CanonicalOfStrings(f.value.text, g.value.text);
    assert String(f.value.text) == f.value && String(g.value.text) == g.value;
  }

  lemma EmptyIsHex()
    ensures IsHex([]) && Lower([]) == []
  {
  }

  /** Exactly which different ID values are no longer told apart: values without a text, such as
      numbers, a null or the empty string, all become the empty string, and hexadecimal texts that
      differ in case become the same. */
  lemma IdsCollapseExactly(fl: Flags, v: Value, w: Value, bits: bv64)
    requires fl.ids && v != w
    ensures NewId(fl, v, bits) == NewId(fl, w, bits) <==>
              || (StrOf(v) == [] && StrOf(w) == [])
              || (v.String? && w.String? && IsHex(v.text) && IsHex(w.text) && Lower(v.text) == Lower(w.text))
  {
    hide NewId, IsHex, Lower;
    SameAfterIffSameBefore(fl, v, w, bits);
    EmptyIsHex();
    if IsHex(StrOf(v)) { LowerIsHex(StrOf(v)); }
    if IsHex(StrOf(w)) { LowerIsHex(StrOf(w)); }
  }

  /** IDs in other places of an event, such as those of span links, keep their value. They still match
      the rewritten ID of the event they refer to exactly when that ID is in lower case and all bits
      that it meets are 0. */
  lemma LinkedIdMatchesExactly(fl: Flags, e: JsonEvent, c: Context, i: nat, id: Bytes)
    requires fl.ids && IsHex(id) && e.body.Object? && i < |e.body.fields| && !Targeted(fl, e, e.body.fields[i].key)
    ensures |WrittenFields(fl, e, c)| == |e.body.fields| && WrittenFields(fl, e, c)[i] == e.body.fields[i]
    ensures NewId(fl, String(id), c.bits) == String(id) <==>
              Lower(id) == id && ZeroBits(c.bits, |id|)
  {
    hide Cipher, Lower, ZeroBits, NewField, WrittenFields, NewPayload, Targeted;
    assert |KeysOf(e.body)| == |e.body.fields|;
    RewritingKeepsTheRest(fl, e, c);
    CipherFixesExactly(id, c.bits);
  }

  // ---------------------------------------------------------------- what targeted fields become

  /** A text becomes its randomized form, and a value without a text becomes the empty text. */
  predicate IsRandomized(v: Value, w: Value, bits: bv64) {
    w == String(if v.String? then RandomText(v.text, bits) else [])
  }

  lemma RandomizedIs(v: Value, bits: bv64)
    ensures IsRandomized(v, Randomized(v, bits), bits)
  {
    hide RandomText;
    RandomTextEmpty(bits);
  }

  /** A hexadecimal ID becomes its cipher text, another text stays, and a value without a text becomes
      the empty text. */
  predicate IsCiphered(v: Value, w: Value, bits: bv64) {
    if v.String? then w == (if IsHex(v.text) then String(Cipher(v.text, bits)) else v) else w == String([])
  }

  lemma NewIdIs(fl: Flags, v: Value, bits: bv64)
    requires fl.ids
    ensures IsCiphered(v, NewId(fl, v, bits), bits)
  {
  }

  /** What the flags select: IDs, the names of spans and of transactions, and the types of transactions. */
  lemma TargetedFields(fl: Flags, e: JsonEvent, c: Context, i: nat)
    requires e.body.Object? && i < |e.body.fields|
    ensures |WrittenFields(fl, e, c)| == |e.body.fields|
    ensures var f, g := e.body.fields[i], WrittenFields(fl, e, c)[i];
            && g.key == f.key
            && (fl.ids && f.key in {"id", "parent_id", "trace_id", "transaction_id"} ==>
                  IsCiphered(f.value, g.value, c.bits))
            && (fl.spanNames && e.objectType == "span" && f.key == "name" ==>
                  IsRandomized(f.value, g.value, c.bits))
            && (fl.transactionNames && e.objectType == "transaction" && f.key == "name" ==>
                  IsRandomized(f.value, g.value, c.bits))
            && (fl.transactionTypes && e.objectType == "transaction" && f.key == "type" ==>
                  IsRandomized(f.value, g.value, c.bits))
  {
    hide NewTime, NewId, NewAlong, Randomized, IsRandomized, IsCiphered, NewPayload, WrittenFields;
    WrittenFieldsAre(fl, e, c);
    var f := e.body.fields[i];
    if fl.ids { NewIdIs(fl, f.value, c.bits); }
    RandomizedIs(f.value, c.bits);
  }

  /** And of a context: the values under "service", "target" and "name", and nothing off that path. */
  lemma TargetedContext(fl: Flags, e: JsonEvent, c: Context, i: nat, at: seq<nat>)
    requires fl.serviceTargetNames && ValidEvent(fl, e) && i < |e.body.fields| && e.body.fields[i].key == "context"
    requires NodeAt(e.body.fields[i].value, at).Some?
    ensures |WrittenFields(fl, e, c)| == |e.body.fields|
    ensures var v, w := e.body.fields[i].value, WrittenFields(fl, e, c)[i].value;
            var keys, node, path := KeysTo(v, at), NodeAt(v, at).value, ["service", "target", "name"];
            && (keys == path ==> NodeAt(w, at).Some? && IsRandomized(node, NodeAt(w, at).value, c.bits))
            && (Apart(keys, path) ==> NodeAt(w, at) == Some(node))
  {
    hide NewTime, NewId, NewAlong, Randomized, IsRandomized, ObjectsAlong, NewPayload, WrittenFields;
    WrittenFieldsAre(fl, e, c);
    var f := e.body.fields[i];
    assert ValidField(fl, f);
    AlongTouchesOnlyThePath(TARGET_NAME, f.value, c.bits, at);
    RandomizedIs(NodeAt(f.value, at).value, c.bits);
  }

  // ---------------------------------------------------------------- metadata

  lemma {:induction false} IndexAfterSet(fs: seq<Field>, i: nat, f: Field, key: string)
    requires i < |fs| && fs[i].key == f.key
    ensures FieldIndex(fs[i := f], key) == FieldIndex(fs, key)
  {
    var gs := fs[i := f];
    assert forall j :: 0 <= j < |fs| ==> gs[j].key == fs[j].key;
    var a, b := FieldIndex(fs, key), FieldIndex(gs, key);
    assert a < |fs| ==> gs[a].key == key;
    assert b < |fs| ==> fs[b].key == key;
  }

  /** Setting a value at a path is seen at that path. */
  lemma {:induction false} SetThenGet(v: Value, path: seq<string>, x: Value)
    requires GetPath(v, path).Some?
    ensures GetPath(SetPath(v, path, x), path) == Some(x)
    decreases |path|
  {
    if path != [] {
      var i := FieldIndex(v.fields, path[0]);
      SetThenGet(v.fields[i].value, path[1..], x);
      IndexAfterSet(v.fields, i, Field(path[0], SetPath(v.fields[i].value, path[1..], x)), path[0]);
    }
  }

  /** Setting a value at a path changes no path that branches off. */
  lemma {:induction false} SetKeepsOthers(v: Value, path: seq<string>, x: Value, other: seq<string>)
    requires GetPath(v, path).Some? && Apart(path, other)
    ensures GetPath(SetPath(v, path, x), other) == GetPath(v, other)
    decreases |path|
  {
    var i := FieldIndex(v.fields, path[0]);
    var w := SetPath(v.fields[i].value, path[1..], x);
    IndexAfterSet(v.fields, i, Field(path[0], w), other[0]);
    if other[0] == path[0] {
      PrefixOfCons(path, other);
      PrefixOfCons(other, path);
      SetKeepsOthers(v.fields[i].value, path[1..], x, other[1..]);
    }
  }

  lemma NamesBranchOff()
    ensures Apart(SERVICE_NAME, SERVICE_NODE_NAME)
  {
    assert SERVICE_NAME[2] == "name" && SERVICE_NODE_NAME[2] == "node";
    assert "name"[1] != "node"[1];
  }

  /** The value at the path, if there is one, is randomized if that is selected and else kept. */
  predicate BecomesAt(v: Value, w: Value, path: seq<string>, selected: bool, bits: bv64) {
    if selected && GetPath(v, path).Some? then
      && GetPath(w, path).Some?
      && IsRandomized(GetPath(v, path).value, GetPath(w, path).value, bits)
    else GetPath(w, path) == GetPath(v, path)
  }

  lemma NewAtPathOnly(v: Value, path: seq<string>, bits: bv64, other: seq<string>)
    requires Apart(path, other)
    ensures GetPath(NewAtPath(v, path, bits), other) == GetPath(v, other)
    ensures BecomesAt(v, NewAtPath(v, path, bits), path, true, bits)
  {
    hide GetPath, SetPath, Randomized, IsRandomized;
    if GetPath(v, path).Some? {
      var x := Randomized(GetPath(v, path).value, bits);
      RandomizedIs(GetPath(v, path).value, bits);
      SetThenGet(v, path, x);
      SetKeepsOthers(v, path, x, other);
    }
  }

  /** The metadata line changes only in the two service names that the flags select; each of them
      becomes the randomized form of what it was. */
  lemma MetadataKeepsTheRest(fl: Flags, metadata: Value, bits: bv64, other: seq<string>)
    requires Apart(["metadata", "service", "name"], other)
    requires Apart(["metadata", "service", "node", "configured_name"], other)
    ensures GetPath(NewMetadata(fl, metadata, bits), other) == GetPath(metadata, other)
    ensures BecomesAt(metadata, NewMetadata(fl, metadata, bits), ["metadata", "service", "name"], fl.serviceNames, bits)
    ensures BecomesAt(metadata, NewMetadata(fl, metadata, bits),
                      ["metadata", "service", "node", "configured_name"], fl.serviceNodeNames, bits)
  {
    hide GetPath, SetPath, Randomized, IsRandomized;
    NamesBranchOff();
    var named := if fl.serviceNames then NewAtPath(metadata, SERVICE_NAME, bits) else metadata;
    if fl.serviceNames {
      NewAtPathOnly(metadata, SERVICE_NAME, bits, other);
      NewAtPathOnly(metadata, SERVICE_NAME, bits, SERVICE_NODE_NAME);
    }
    if fl.serviceNodeNames {
      NewAtPathOnly(named, SERVICE_NODE_NAME, bits, other);
      NewAtPathOnly(named, SERVICE_NODE_NAME, bits, SERVICE_NAME);
    }
  }
}
