/**
  JSON values with ordered fields and the tokens that stand for their text. Reading the tokens back
  gives the value, so what is written into a token buffer determines the tree.
*/
module Json {
  import opened Basics
  import Randomize

  /** Instant and Micros are the two forms that rewritten timestamps take: the text of a time, and
      a number of microseconds. Other is any number, array, literal or so, as it was in the input. */
  datatype Value =
    | Object(fields: seq<Field>)
    | String(text: Randomize.Bytes)
    | Instant(ns: int)
    | Micros(us: uint64)
    | Other(raw: string)

  datatype Field = Field(key: string, value: Value)

  datatype Token = OpenBrace | CloseBrace | Comma | Colon | Key(key: string) | Leaf(value: Value)

  /** The text of a string; any other value has none. */
  function StrOf(v: Value): Randomize.Bytes {
    if v.String? then v.text else []
  }

  function Tokens(v: Value): (ts: seq<Token>)
    ensures ts != []
    decreases v, 1
  {
    match v
    case Object(fs) => [OpenBrace] + FieldTokens(fs) + [CloseBrace]
    case _ => [Leaf(v)]
  }

  function FieldTokens(fs: seq<Field>): seq<Token>
    decreases fs, 0
  {
    if fs == [] then []
    else
      var n := |fs| - 1;
      FieldTokens(fs[..n]) + (if n == 0 then [] else [Comma]) + [Key(fs[n].key), Colon] + Tokens(fs[n].value)
  }

  // ---------------------------------------------------------------- reading tokens

  function ParseValue(ts: seq<Token>): (r: Option<(Value, seq<Token>)>)
    ensures r.Some? ==> |r.value.1| < |ts|
    decreases |ts|, 1
  {
    if ts == [] then None
    else
      match ts[0]
      case Leaf(v) => Some((v, ts[1..]))
      case OpenBrace =>
        if |ts| > 1 && ts[1] == CloseBrace then Some((Object([]), ts[2..]))
        else
          (match ParseFields(ts[1..])
           case None => None
           case Some((fs, rest)) => Some((Object(fs), rest)))
      case _ => None
  }

  /** Fields up to and including the closing brace. */
  function ParseFields(ts: seq<Token>): (r: Option<(seq<Field>, seq<Token>)>)
    ensures r.Some? ==> |r.value.1| < |ts|
    decreases |ts|, 0
  {
    if |ts| < 2 || !ts[0].Key? || ts[1] != Colon then None
    else
      match ParseValue(ts[2..])
      case None => None
      case Some((v, rest)) =>
        if rest == [] then None
        else if rest[0] == CloseBrace then Some(([Field(ts[0].key, v)], rest[1..]))
        else if rest[0] == Comma then
          (match ParseFields(rest[1..])
           case None => None
           case Some((fs, after)) => Some(([Field(ts[0].key, v)] + fs, after)))
        else None
  }

  /** The tokens of fields, from the first on. */
  function FieldTokensFrom(fs: seq<Field>): seq<Token>
    decreases fs, 0
  {
    if fs == [] then []
    else
      [Key(fs[0].key), Colon] + Tokens(fs[0].value)
      + (if |fs| == 1 then [] else [Comma] + FieldTokensFrom(fs[1..]))
  }

  lemma {:induction false} AppendField(fs: seq<Field>, f: Field)
    requires fs != []
    ensures FieldTokensFrom(fs + [f]) == FieldTokensFrom(fs) + [Comma] + [Key(f.key), Colon] + Tokens(f.value)
    decreases |fs|
  {
    hide Tokens;
    var all := fs + [f];
    assert all[0] == fs[0] && all[1..] == fs[1..] + [f];
    if |fs| == 1 {
      assert all[1..] == [f];
    } else {
      AppendField(fs[1..], f);
    }
  }

  lemma {:induction false} FieldTokensEitherWay(fs: seq<Field>)
    ensures FieldTokens(fs) == FieldTokensFrom(fs)
    decreases |fs|
  {
    hide Tokens;
    if |fs| == 1 {
      assert FieldTokens(fs[..0]) == [];
    } else if |fs| > 1 {
      var n := |fs| - 1;
      FieldTokensEitherWay(fs[..n]);
      AppendField(fs[..n], fs[n]);
      assert fs[..n] + [fs[n]] == fs;
    }
  }

  lemma LastTokens(f: Field, rest: seq<Token>)
    ensures FieldTokensFrom([f]) + [CloseBrace] + rest == [Key(f.key), Colon] + Tokens(f.value) + ([CloseBrace] + rest)
  {
  }

  lemma MoreTokens(fs: seq<Field>, rest: seq<Token>)
    requires |fs| > 1
    ensures FieldTokensFrom(fs) + [CloseBrace] + rest
         == [Key(fs[0].key), Colon] + Tokens(fs[0].value)
            + ([Comma] + (FieldTokensFrom(fs[1..]) + [CloseBrace] + rest))
  {
  }

  lemma LastFieldRead(f: Field, rest: seq<Token>)
    requires ParseValue(Tokens(f.value) + ([CloseBrace] + rest)) == Some((f.value, [CloseBrace] + rest))
    ensures ParseFields([Key(f.key), Colon] + Tokens(f.value) + ([CloseBrace] + rest)) == Some(([f], rest))
  {
    hide Tokens, ParseValue;
    var after := Tokens(f.value) + ([CloseBrace] + rest);
    assert [Key(f.key), Colon] + Tokens(f.value) + ([CloseBrace] + rest) == [Key(f.key), Colon] + after;
    assert ([Key(f.key), Colon] + after)[2..] == after;
    assert ([CloseBrace] + rest)[1..] == rest;
  }

  lemma NextFieldRead(f: Field, more: seq<Token>, fs: seq<Field>, rest: seq<Token>)
    requires ParseValue(Tokens(f.value) + ([Comma] + more)) == Some((f.value, [Comma] + more))
    requires ParseFields(more) == Some((fs, rest))
    ensures ParseFields([Key(f.key), Colon] + Tokens(f.value) + ([Comma] + more)) == Some(([f] + fs, rest))
  {
    hide Tokens, ParseValue;
    var after := Tokens(f.value) + ([Comma] + more);
    assert [Key(f.key), Colon] + Tokens(f.value) + ([Comma] + more) == [Key(f.key), Colon] + after;
    assert ([Key(f.key), Colon] + after)[2..] == after;
    assert ([Comma] + more)[1..] == more;
  }

  /** Reading the tokens of a value gives the value and leaves what follows. */
  lemma {:induction false} ReadsBack(v: Value, rest: seq<Token>)
    ensures ParseValue(Tokens(v) + rest) == Some((v, rest))
    decreases v, 1
  {
    match v
    case Object(fs) =>
      var ts := Tokens(v) + rest;
      FieldTokensEitherWay(fs);
      if fs == [] {
        assert ts == [OpenBrace, CloseBrace] + rest;
      } else {
        assert ts[1..] == FieldTokensFrom(fs) + [CloseBrace] + rest;
        FieldsReadBack(fs, rest);
      }
    case _ =>
      assert (Tokens(v) + rest)[1..] == rest;
  }

  lemma {:induction false} FieldsReadBack(fs: seq<Field>, rest: seq<Token>)
    requires fs != []
    ensures ParseFields(FieldTokensFrom(fs) + [CloseBrace] + rest) == Some((fs, rest))
    decreases fs, 0
  {
    hide Tokens, ParseFields, ParseValue, FieldTokensFrom;
    var f := fs[0];
    if |fs| == 1 {
      assert [f] == fs;
      ReadsBack(f.value, [CloseBrace] + rest);
      LastTokens(f, rest);
      LastFieldRead(f, rest);
    } else {
      var more := FieldTokensFrom(fs[1..]) + [CloseBrace] + rest;
      ReadsBack(f.value, [Comma] + more);
      FieldsReadBack(fs[1..], rest);
      MoreTokens(fs, rest);
      NextFieldRead(f, more, fs[1..], rest);
      assert [f] + fs[1..] == fs;
    }
  }

  /** Different values have different tokens. */
  lemma TokensInjective(v: Value, w: Value)
    requires Tokens(v) == Tokens(w)
    ensures v == w
  {
    hide Tokens;
    ReadsBack(v, []);
    ReadsBack(w, []);
  }
}
