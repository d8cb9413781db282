/** Rendering status lines, and reading them back. */
module OtaStatusLine {
  import opened Wrappers
  import opened Bytes
  import opened OtaStatus

  datatype Field = Field(key: string, value: uint32)

  /** Keys that survive tokenizing: no white space and no '='. */
  predicate Legal(f: Field) { NoSpaces(f.key) && '=' !in f.key }

  function Digit(d: nat): char
    requires d < 10
  {
    '0' + d as char
  }

  function Digits(n: nat): (s: string)
    ensures s != "" && AllDigits(s)
  {
    if n < 10 then [Digit(n)] else Digits(n / 10) + [Digit(n % 10)]
  }

  lemma {:induction false} DigitsRoundTrip(n: nat)
    ensures DecimalValue(Digits(n)) == n
  {
    if n >= 10 {
      DigitsRoundTrip(n / 10);
      assert Digits(n)[..|Digits(n)| - 1] == Digits(n / 10);
    } else {
      assert Digits(n)[..0] == "";
    }
  }

  function Render(f: Field): string { f.key + "=" + Digits(f.value) }

  lemma RenderIsRead(f: Field)
    requires Legal(f)
    ensures NoSpaces(Render(f)) && Render(f) != ""
    ensures WellFormed(Render(f)) && Key(Render(f)) == f.key && Value(Render(f)) == f.value
  {
    var t, k := Render(f), |f.key|;
    assert t[k] == '=' && t[..k] == f.key;
    FirstEquals(t, k);
    assert t[..k] == f.key && t[k + 1..] == Digits(f.value);
    DigitsRoundTrip(f.value);
  }

  lemma FirstEquals(t: string, k: nat)
    requires k < |t| && t[k] == '=' && '=' !in t[..k]
    ensures FindEquals(t) == Some(k)
  {
    if k > 0 {
      assert t[0] in t[..k] && t[1..][..k - 1] == t[..k][1..];
      FirstEquals(t[1..], k - 1);
    }
  }

  // ---------------------------------------------------------------- lines

  /** White space after each field; between two fields there is some. */
  predicate Gaps(gaps: seq<string>, n: nat) {
    && |gaps| == n && (forall g | g in gaps :: AllSpaces(g))
    && forall i | 0 <= i < n - 1 :: gaps[i] != ""
  }

  function Body(fields: seq<Field>, gaps: seq<string>): string
    requires |gaps| == |fields|
  {
    if fields == [] then "" else Render(fields[0]) + (gaps[0] + Body(fields[1..], gaps[1..]))
  }

  function Line(lead: string, fields: seq<Field>, gaps: seq<string>): string
    requires |gaps| == |fields|
  {
    PREFIX + lead + Body(fields, gaps)
  }

  function Rendered(fields: seq<Field>): seq<string> {
    seq(|fields|, i requires 0 <= i < |fields| => Render(fields[i]))
  }

  lemma SkipLead(lead: string, s: string)
    requires AllSpaces(lead)
    ensures SkipSpaces(lead + s) == SkipSpaces(s)
    decreases |lead|
  {
    if lead != "" {
      assert (lead + s)[1..] == lead[1..] + s;
      SkipLead(lead[1..], s);
    } else {
      assert lead + s == s;
    }
  }

  lemma TokenThenSpace(t: string, s: string)
    requires NoSpaces(t) && (s != "" ==> IsSpace(s[0]))
    ensures TokenLength(t + s) == |t|
    decreases |t|
  {
    if t != "" {
      assert (t + s)[1..] == t[1..] + s;
      TokenThenSpace(t[1..], s);
    } else {
      assert t + s == s;
    }
  }

  /** The first field of a body is its first token. */
  lemma FirstToken(lead: string, fields: seq<Field>, gaps: seq<string>)
    requires AllSpaces(lead) && fields != [] && Gaps(gaps, |fields|) && Legal(fields[0])
    ensures Tokens(lead + Body(fields, gaps)) == [Render(fields[0])] + Tokens(gaps[0] + Body(fields[1..], gaps[1..]))
  {
    hide Render, SkipSpaces, TokenLength, Tokens;
    var t, rest := Render(fields[0]), gaps[0] + Body(fields[1..], gaps[1..]);
    RenderIsRead(fields[0]);
    SpaceAfterField(fields, gaps);
    OneToken(lead, t, rest);
  }

  /** Tokenizing a line gives back exactly its rendered fields. */
  lemma {:induction false} TokensOfBody(lead: string, fields: seq<Field>, gaps: seq<string>)
    requires AllSpaces(lead) && Gaps(gaps, |fields|) && forall f | f in fields :: Legal(f)
    ensures Tokens(lead + Body(fields, gaps)) == Rendered(fields)
    decreases |fields|
  {
    hide Render, SkipSpaces, TokenLength, Tokens, AllSpaces;
    if fields == [] {
      NoTokens(lead);
      assert lead + Body(fields, gaps) == lead;
    } else {
      FirstToken(lead, fields, gaps);
      GapsTail(gaps, |fields|);
      TokensOfBody(gaps[0], fields[1..], gaps[1..]);
      assert Rendered(fields) == [Render(fields[0])] + Rendered(fields[1..]);
    }
  }

  lemma GapsTail(gaps: seq<string>, n: nat)
    requires n > 0 && Gaps(gaps, n)
    ensures |gaps| == n && AllSpaces(gaps[0]) && Gaps(gaps[1..], n - 1)
  {
    assert gaps[0] in gaps;
    forall i | 0 <= i < n - 2 ensures gaps[1..][i] != "" { assert gaps[1..][i] == gaps[i + 1]; }
  }

  lemma NoTokens(lead: string)
    requires AllSpaces(lead)
    ensures Tokens(lead) == []
  {
    assert lead + "" == lead;
    SkipLead(lead, "");
  }

  lemma OneToken(lead: string, t: string, rest: string)
    requires AllSpaces(lead) && NoSpaces(t) && t != "" && (rest != "" ==> IsSpace(rest[0]))
    ensures Tokens(lead + (t + rest)) == [t] + Tokens(rest)
  {
    SkipLead(lead, t + rest);
    assert t[0] in t && SkipSpaces(t + rest) == t + rest;
    TokenThenSpace(t, rest);
    assert (t + rest)[..|t|] == t && (t + rest)[|t|..] == rest;
  }

  lemma SpaceAfterField(fields: seq<Field>, gaps: seq<string>)
    requires fields != [] && Gaps(gaps, |fields|)
    ensures var rest := gaps[0] + Body(fields[1..], gaps[1..]); rest != "" ==> IsSpace(rest[0])
  {
    assert gaps[0] in gaps;
    if gaps[0] == "" { assert |fields| == 1; }
  }

  // ---------------------------------------------------------------- the round trip

  predicate Distinct(fields: seq<Field>) {
    forall i, j | 0 <= i < j < |fields| :: fields[i].key != fields[j].key
  }

  /** The fields render this status: no key twice, the five values among them, whatever else is there. */
  predicate Renders(fields: seq<Field>, s: Status) {
    && Distinct(fields)
    && Field("SLOT", s.slot) in fields && Field("VERSION", s.version) in fields
    && Field("CONFIRMED", s.confirmed) in fields && Field("PENDING", s.pending) in fields
    && Field("READY", s.ready) in fields && s.slot < 2 && s.ready <= 1
  }

  lemma RenderedFields(fields: seq<Field>)
    requires forall f | f in fields :: Legal(f)
    ensures FieldsOk(Rendered(fields))
    ensures DistinctKeys(Rendered(fields)) <==> Distinct(fields)
    ensures forall key: string, value: uint32 :: Gives(Rendered(fields), key, value) <==> Field(key, value) in fields
  {
    hide WellFormed, Key, Value, Render;
    var tokens := Rendered(fields);
    forall f | f in fields
      ensures WellFormed(Render(f)) && Key(Render(f)) == f.key && Value(Render(f)) == f.value
    {
      RenderIsRead(f);
    }
    assert FieldsOk(tokens);
    forall i, j | 0 <= i < j < |fields|
      ensures Key(tokens[i]) != Key(tokens[j]) <==> fields[i].key != fields[j].key
    {
      assert tokens[i] == Render(fields[i]) && tokens[j] == Render(fields[j]);
    }
    forall key: string, value: uint32
      ensures Gives(tokens, key, value) <==> Field(key, value) in fields
    {
      if Gives(tokens, key, value) {
        var t :| t in tokens && Key(t) == key && Value(t) == value;
        var i :| 0 <= i < |tokens| && tokens[i] == t;
        assert fields[i] == Field(key, value);
      }
      if Field(key, value) in fields {
        var i :| 0 <= i < |fields| && fields[i] == Field(key, value);
        assert tokens[i] == Render(fields[i]);
      }
    }
  }

  /** Parsing inverts every rendering of a status, in any order, spacing and company, and accepts no other line. */
  lemma LineRoundTrip(lead: string, fields: seq<Field>, gaps: seq<string>, s: Status)
    requires AllSpaces(lead) && Gaps(gaps, |fields|) && forall f | f in fields :: Legal(f)
    ensures Parsed(Line(lead, fields, gaps)) == Success(s) <==> Renders(fields, s)
  {
    var line := Line(lead, fields, gaps);
    assert line[7..] == lead + Body(fields, gaps);
    TokensOfBody(lead, fields, gaps);
    AcceptedExactlyWhen(line, s);
    RenderedFields(fields);
  }

  /** A repeated key rejects the line, even with equal values. */
  lemma RepeatedKeyIsRejected(lead: string, fields: seq<Field>, gaps: seq<string>, i: nat, j: nat)
    requires AllSpaces(lead) && Gaps(gaps, |fields|) && forall f | f in fields :: Legal(f)
    requires i < j < |fields| && fields[i].key == fields[j].key
    ensures Parsed(Line(lead, fields, gaps)).Failure?
  {
    var r := Parsed(Line(lead, fields, gaps));
    if r.Success? { LineRoundTrip(lead, fields, gaps, r.value); }
  }

  lemma DistinctIgnoresOrder(x: seq<Field>, y: seq<Field>)
    requires multiset(x) == multiset(y) && Distinct(x)
    ensures Distinct(y)
  {
    forall i, j | 0 <= i < j < |y| ensures y[i].key != y[j].key {
      if y[i].key == y[j].key {
        assert y[i] in multiset(x) && y[j] in multiset(x);
        if y[i] == y[j] {
          assert y == y[..j] + y[j..];
          assert y[..j][i] in multiset(y[..j]) && y[j..][0] in multiset(y[j..]);
          assert multiset(x)[y[i]] >= 2;
          DistinctOnce(x, y[i]);
        }
      }
    }
  }

  lemma DistinctOnce(x: seq<Field>, f: Field)
    requires Distinct(x)
    ensures multiset(x)[f] <= 1
  {
    if x != [] {
      assert x == x[..|x| - 1] + [x[|x| - 1]];
      DistinctOnce(x[..|x| - 1], f);
    }
  }

  /** The order of the fields does not matter. */
  lemma OrderIsIrrelevant(lead: string, x: seq<Field>, gx: seq<string>, y: seq<Field>, gy: seq<string>, s: Status)
    requires AllSpaces(lead) && Gaps(gx, |x|) && Gaps(gy, |y|) && forall f | f in x :: Legal(f)
    requires multiset(x) == multiset(y)
    ensures Parsed(Line(lead, x, gx)) == Success(s) <==> Parsed(Line(lead, y, gy)) == Success(s)
  {
    assert forall f :: f in x <==> f in multiset(x);
    assert forall f :: f in y <==> f in multiset(y);
    LineRoundTrip(lead, x, gx, s);
    LineRoundTrip(lead, y, gy, s);
    if Distinct(x) { DistinctIgnoresOrder(x, y); }
    if Distinct(y) { DistinctIgnoresOrder(y, x); }
  }
}
