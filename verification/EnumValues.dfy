/**
 The values of an enum column type (schema/introspect.ts): reading the quoted literals back
 from the text that lists them.
 */
module EnumValues {
  import opened JsText

  const QUOTE := '\''

  // ---- One literal -------------------------------------------------------

  /** `s[..e]` is made of characters that are not quotes and of doubled quotes. */
  predicate IsBody(s: string, e: nat)
    requires e <= |s|
  {
    || e == 0
    || (s[0] != QUOTE && IsBody(s[1..], e - 1))
    || (e >= 2 && s[0] == QUOTE && s[1] == QUOTE && IsBody(s[2..], e - 2))
  }

  /** The pattern can match a body of `e` characters and the quote that closes it. */
  predicate Closes(s: string, e: nat) {
    e < |s| && s[e] == QUOTE && IsBody(s, e)
  }

  /** Where the match that the pattern prefers closes: at a lone quote, or else within the last pair. */
  function BodyEnd(s: string): (r: Option<nat>)
    ensures r.Some? ==> r.value < |s|
  {
    if s == "" then None
    else if s[0] != QUOTE then
      match BodyEnd(s[1..])
      case Some(e) => Some(e + 1)
      case None => None
    else if |s| >= 2 && s[1] == QUOTE then
      match BodyEnd(s[2..])
      case Some(e) => Some(e + 2)
      case None => Some(0)
    else Some(0)
  }

  /** It is the longest match, and there is none exactly when nothing matches. */
  lemma {:induction false} BodyEndIsLongest(s: string)
    ensures BodyEnd(s).Some? ==> Closes(s, BodyEnd(s).value)
    ensures forall e: nat :: Closes(s, e) ==> BodyEnd(s).Some? && e <= BodyEnd(s).value
    decreases |s|
  {
    if s != "" && s[0] != QUOTE {
      BodyEndIsLongest(s[1..]);
      forall e: nat | Closes(s, e) ensures BodyEnd(s).Some? && e <= BodyEnd(s).value {
        assert Closes(s[1..], e - 1);
      }
    } else if |s| >= 2 && s[1] == QUOTE {
      BodyEndIsLongest(s[2..]);
      forall e: nat | Closes(s, e) ensures BodyEnd(s).Some? && e <= BodyEnd(s).value {
        if e >= 2 {
          assert Closes(s[2..], e - 2);
        }
      }
    }
  }

  /** Each pair of quotes becomes one, from the left. */
  function Undoubled(s: string): string
    decreases |s|
  {
    if s == "" then ""
    else if |s| >= 2 && s[0] == QUOTE && s[1] == QUOTE then [QUOTE] + Undoubled(s[2..])
    else [s[0]] + Undoubled(s[1..])
  }

  // ---- All literals ------------------------------------------------------

  /** The end of the body of the literal that begins `s`, when one does. */
  function LiteralEnd(s: string): (r: Option<nat>)
    ensures r.Some? ==> 1 <= r.value < |s|
  {
    if s == "" || s[0] != QUOTE then None
    else
      match BodyEnd(s[1..])
      case Some(e) => Some(e + 1)
      case None => None
  }

  /** The values of the literals found from the left, skipping what begins none. */
  function Literals(s: string): seq<string>
    decreases |s|
  {
    if s == "" then []
    else
      match LiteralEnd(s)
      case Some(e) => [Undoubled(s[1..e])] + Literals(s[e + 1..])
      case None => Literals(s[1..])
  }

  /** One step of the search, from offset `at`. */
  lemma NextLiteral(inner: string, at: nat, values: seq<string>)
    requires at < |inner|
    ensures var rest := inner[at..];
      values + Literals(rest) ==
        match LiteralEnd(rest)
        case Some(e) => values + [Undoubled(rest[1..e])] + Literals(inner[at + e + 1..])
        case None => values + Literals(inner[at + 1..])
  {
    var rest := inner[at..];
    assert rest[1..] == inner[at + 1..];
    var found := LiteralEnd(rest);
    if found.Some? {
      assert rest[found.value + 1..] == inner[at + found.value + 1..];
    }
  }

  const PREFIX := "enum("

  predicate IsEnum(columnType: string) {
    |columnType| >= 6 && columnType[..5] == PREFIX && columnType[|columnType| - 1] == ')'
  }

  /** The values of an enum column type; `None` when the type is not an enum. */
  method EnumValues(columnType: string) returns (r: Option<seq<string>>)
    ensures r == if IsEnum(columnType) then Some(Literals(columnType[5..|columnType| - 1])) else None
  {
    if !IsEnum(columnType) {
      return None;
    }
    var values := LiteralsOf(columnType[5..|columnType| - 1]);
    return Some(values);
  }

  method LiteralsOf(inner: string) returns (values: seq<string>)
    ensures values == Literals(inner)
  {
    values := [];
    var at := 0;
    while at < |inner|
      invariant 0 <= at <= |inner|
      invariant Literals(inner) == values + Literals(inner[at..])
    {
      var rest := inner[at..];
      NextLiteral(inner, at, values);
      match LiteralEnd(rest) {
        case Some(e) =>
          values := values + [Undoubled(rest[1..e])];
          at := at + e + 1;
        case None =>
          at := at + 1;
      }
    }
  }

  // ---- Round trip --------------------------------------------------------

  function Doubled(v: string): string {
    if v == "" then "" else (if v[0] == QUOTE then [QUOTE, QUOTE] else [v[0]]) + Doubled(v[1..])
  }

  function Quoted(v: string): string { [QUOTE] + Doubled(v) + [QUOTE] }

  function Listed(values: seq<string>): string {
    if values == [] then ""
    else if |values| == 1 then Quoted(values[0])
    else Quoted(values[0]) + ("," + Listed(values[1..]))
  }

  /** An enum type as it is written: quoted values, quotes doubled, commas between. */
  function Written(values: seq<string>): string { PREFIX + Listed(values) + ")" }

  /** What follows a literal: nothing, or text that does not begin with a quote. */
  predicate Follows(rest: string) { rest == "" || rest[0] != QUOTE }

  lemma {:induction false} DoubledCloses(v: string, rest: string)
    requires Follows(rest)
    ensures BodyEnd(Doubled(v) + ([QUOTE] + rest)) == Some(|Doubled(v)|)
  {
    var tail := [QUOTE] + rest;
    var s := Doubled(v) + tail;
    if v == "" {
      assert s == tail && s[0] == QUOTE;
      assert rest != "" ==> s[1] == rest[0];
    } else {
      DoubledCloses(v[1..], rest);
      var d := Doubled(v[1..]);
      if v[0] == QUOTE {
        assert s[0] == QUOTE && s[1] == QUOTE && s[2..] == d + tail;
      } else {
        assert s[0] != QUOTE && s[1..] == d + tail;
      }
    }
  }

  lemma {:induction false} UndoubledDoubled(v: string)
    ensures Undoubled(Doubled(v)) == v
  {
    if v != "" {
      UndoubledDoubled(v[1..]);
      var s, d := Doubled(v), Doubled(v[1..]);
      if v[0] == QUOTE {
        assert s[0] == QUOTE && s[1] == QUOTE && s[2..] == d;
      } else {
        assert s[0] != QUOTE && s[1..] == d;
      }
      assert v == [v[0]] + v[1..];
    }
  }

  /** A quoted value is read back, and reading goes on after it. */
  lemma QuotedIsRead(v: string, rest: string)
    requires Follows(rest)
    ensures Literals(Quoted(v) + rest) == [v] + Literals(rest)
  {
    var s := Quoted(v) + rest;
    DoubledCloses(v, rest);
    assert s[0] == QUOTE && s[1..] == Doubled(v) + ([QUOTE] + rest);
    assert LiteralEnd(s) == Some(|Doubled(v)| + 1);
    assert s[1..|Doubled(v)| + 1] == Doubled(v) && s[|Doubled(v)| + 2..] == rest;
    UndoubledDoubled(v);
  }

  lemma SeparatorIsSkipped(rest: string)
    ensures Literals("," + rest) == Literals(rest)
  {
    var s := "," + rest;
    assert s[0] == ',' && s[1..] == rest;
  }

  lemma {:induction false} ListedIsRead(values: seq<string>)
    ensures Literals(Listed(values)) == values
  {
    if |values| == 1 {
      QuotedIsRead(values[0], "");
      assert Quoted(values[0]) + "" == Quoted(values[0]);
    } else if |values| > 1 {
      ListedIsRead(values[1..]);
      SeparatorIsSkipped(Listed(values[1..]));
      QuotedIsRead(values[0], "," + Listed(values[1..]));
    }
  }

  /** Reading a written enum type gives back its values, whatever characters they hold. */
  lemma WrittenIsRead(values: seq<string>)
    ensures var w := Written(values);
      IsEnum(w) && Literals(w[5..|w| - 1]) == values
  {
    var w := Written(values);
    assert w[5..|w| - 1] == Listed(values);
    ListedIsRead(values);
  }
}
