/** Which replies are accepted, as text: nothing but tokens of a key, '=' and decimal digits between white space. */
module OtaStatusText {
  import opened Wrappers
  import opened Bytes
  import opened OtaStatus
  import opened OtaStatusLine

  // ---------------------------------------------------------------- any text is its tokens between white space

  /** Blank, tab, line feed, vertical tab, form feed and carriage return. */
  lemma SpacesAre(c: char)
    ensures IsSpace(c) <==> c as int in {32, 9, 10, 11, 12, 13}
  {
  }

  /** The tokens, each followed by its gap. */
  function Woven(tokens: seq<string>, gaps: seq<string>): string
    requires |gaps| == |tokens|
  {
    if tokens == [] then "" else tokens[0] + (gaps[0] + Woven(tokens[1..], gaps[1..]))
  }

  predicate AreTokens(tokens: seq<string>) { forall t | t in tokens :: t != "" && NoSpaces(t) }

  lemma WovenStarts(tokens: seq<string>, gaps: seq<string>)
    requires tokens != [] && AreTokens(tokens) && Gaps(gaps, |tokens|)
    ensures var rest := gaps[0] + Woven(tokens[1..], gaps[1..]); rest != "" ==> IsSpace(rest[0])
  {
    assert gaps[0] in gaps;
    if gaps[0] == "" { assert |tokens| == 1; }
  }

  /** Extraction gives back any tokens, however they are spaced. */
  lemma {:induction false} TokensOfWoven(lead: string, tokens: seq<string>, gaps: seq<string>)
    requires AllSpaces(lead) && AreTokens(tokens) && Gaps(gaps, |tokens|)
    ensures Tokens(lead + Woven(tokens, gaps)) == tokens
    decreases |tokens|
  {
    hide SkipSpaces, TokenLength, Tokens, AllSpaces, NoSpaces;
    if tokens == [] {
      NoTokens(lead);
      assert lead + Woven(tokens, gaps) == lead;
    } else {
      var t, rest := tokens[0], gaps[0] + Woven(tokens[1..], gaps[1..]);
      WovenStarts(tokens, gaps);
      OneToken(lead, t, rest);
      GapsTail(gaps, |tokens|);
      TokensOfWoven(gaps[0], tokens[1..], gaps[1..]);
      assert tokens == [t] + tokens[1..];
    }
  }

  /** The white space at the start of a text. */
  function Lead(s: string): (lead: string)
    ensures AllSpaces(lead) && s == lead + SkipSpaces(s)
  {
    if s != "" && IsSpace(s[0]) then
      assert s == [s[0]] + s[1..];
      [s[0]] + Lead(s[1..])
    else ""
  }

  /** Every text is white space and its tokens with white space between them. */
  lemma {:induction false} TextIsWoven(s: string) returns (lead: string, gaps: seq<string>)
    ensures AllSpaces(lead) && AreTokens(Tokens(s)) && Gaps(gaps, |Tokens(s)|)
    ensures s == lead + Woven(Tokens(s), gaps)
    decreases |s|
  {
    lead := Lead(s);
    var rest := SkipSpaces(s);
    if rest == "" {
      gaps := [];
    } else {
      var n := TokenLength(rest);
      var first, more := rest[..n], rest[n..];
      assert n > 0 && rest == first + more && Tokens(s) == [first] + Tokens(more);
      assert more != "" ==> IsSpace(more[0]);
      var gap, others := TextIsWoven(more);
      gaps := [gap] + others;
      hide Tokens, SkipSpaces, TokenLength, Woven, AreTokens, Gaps, AllSpaces;
      WeaveOn(first, more, gap, Tokens(more), others);
    }
  }

  lemma WeaveOn(first: string, more: string, gap: string, tokens: seq<string>, others: seq<string>)
    requires first != "" && NoSpaces(first) && (more != "" ==> IsSpace(more[0]))
    requires AllSpaces(gap) && AreTokens(tokens) && Gaps(others, |tokens|) && more == gap + Woven(tokens, others)
    ensures AreTokens([first] + tokens) && Gaps([gap] + others, 1 + |tokens|)
    ensures first + more == Woven([first] + tokens, [gap] + others)
  {
    var all := [gap] + others;
    if tokens != [] { GapIsNotEmpty(more, gap, tokens, others); }
    hide IsSpace;
    forall i | 0 <= i < |all| - 1 ensures all[i] != "" {
      if i > 0 { assert all[i] == others[i - 1]; }
    }
    assert ([first] + tokens)[1..] == tokens && all[1..] == others;
  }

  lemma GapIsNotEmpty(more: string, gap: string, tokens: seq<string>, others: seq<string>)
    requires tokens != [] && AreTokens(tokens) && |others| == |tokens| && more == gap + Woven(tokens, others)
    requires more != "" ==> IsSpace(more[0])
    ensures gap != ""
  {
    var t := tokens[0];
    assert t in tokens && t != "" && NoSpaces(t);
    assert t[0] in t && Woven(tokens, others)[0] == t[0];
  }

  // ---------------------------------------------------------------- fields

  /** The token is a key without '=', then '=', then at least one decimal digit and nothing else. */
  predicate IsField(t: string, key: string, digits: string) {
    t == key + "=" + digits && '=' !in key && digits != "" && forall c | c in digits :: '0' <= c <= '9'
  }

  lemma FieldIs(t: string, key: string, digits: string)
    requires IsField(t, key, digits)
    ensures WellFormed(t) && Key(t) == key && Value(t) == DecimalValue(digits)
  {
    var k := |key|;
    assert t[k] == '=' && t[..k] == key && t[k + 1..] == digits;
    FirstEquals(t, k);
    assert AllDigits(digits);
  }

  lemma WellFormedIs(t: string)
    ensures WellFormed(t) <==> exists key, digits :: IsField(t, key, digits)
  {
    if WellFormed(t) {
      var p := FindEquals(t).value;
      assert t == t[..p] + "=" + t[p + 1..];
      assert IsField(t, t[..p], t[p + 1..]);
    }
    if key, digits :| IsField(t, key, digits) { FieldIs(t, key, digits); }
  }

  function Zeros(n: nat): string { if n == 0 then "" else "0" + Zeros(n - 1) }

  lemma NextDigit(front: string, c: char)
    requires AllDigits(front) && IsDigit(c)
    ensures AllDigits(front + [c])
    ensures DecimalValue(front + [c]) == 10 * DecimalValue(front) + (c as int - '0' as int)
  {
    assert (front + [c])[..|front|] == front;
  }

  lemma DigitsEnd(n: nat, c: char)
    requires IsDigit(c)
    ensures Digits(10 * n + (c as int - '0' as int)) == if n == 0 then [c] else Digits(n) + [c]
  {
    var v := c as int - '0' as int;
    assert (10 * n + v) / 10 == n && (10 * n + v) % 10 == v;
  }

  /** A string of digits is a number with leading zeros, and its value is that number. */
  lemma {:induction false} DigitsAreNumbers(d: string) returns (z: nat)
    requires d != "" && AllDigits(d)
    ensures d == Zeros(z) + Digits(DecimalValue(d))
    decreases |d|
  {
    hide DecimalValue, Digits;
    var front, last := d[..|d| - 1], d[|d| - 1];
    assert d == front + [last] && IsDigit(last) && AllDigits(front);
    NextDigit(front, last);
    DigitsEnd(DecimalValue(front), last);
    if front == "" {
      z := 0;
      NoDigits();
    } else {
      var before := DigitsAreNumbers(front);
      hide AllDigits, IsDigit, Zeros;
      if DecimalValue(front) == 0 {
        z := before + 1;
        ZeroDigit();
        ZerosEnd(before);
      } else {
        z := before;
        Regroup(Zeros(z), Digits(DecimalValue(front)), [last]);
      }
    }
  }

  lemma Regroup(a: string, b: string, c: string)
    ensures (a + b) + c == a + (b + c)
  {
  }

  lemma NoDigits()
    ensures DecimalValue("") == 0
  {
  }

  lemma ZeroDigit()
    ensures Digits(0) == "0"
  {
  }

  lemma ZerosEnd(n: nat)
    ensures Zeros(n + 1) == Zeros(n) + "0"
  {
    if n > 0 {
      ZerosEnd(n - 1);
      assert "0" + (Zeros(n - 1) + "0") == ("0" + Zeros(n - 1)) + "0";
    }
  }

  // ---------------------------------------------------------------- the accepted replies

  /** A reply in these tokens and gaps. */
  predicate IsReplyOf(reply: string, lead: string, tokens: seq<string>, gaps: seq<string>) {
    && AllSpaces(lead) && AreTokens(tokens) && Gaps(gaps, |tokens|)
    && reply == "OK OTA " + (lead + Woven(tokens, gaps))
  }

  /**
   Exactly which texts are accepted as a status: "OK OTA ", then tokens between white space that describe it. Every
   reply that begins so has exactly one way to be read as tokens.
   */
  lemma AcceptedIs(reply: string, s: Status)
    ensures Parsed(reply) == Success(s) <==>
      exists lead, tokens, gaps :: IsReplyOf(reply, lead, tokens, gaps) && Describes(tokens, s)
  {
    hide Describes, Tokens, Woven, AreTokens, AllSpaces;
    if Parsed(reply) == Success(s) {
      assert PREFIX <= reply;
      AcceptedExactlyWhen(reply, s);
      var lead, gaps := TextIsWoven(reply[7..]);
      assert reply == "OK OTA " + reply[7..];
      assert IsReplyOf(reply, lead, Tokens(reply[7..]), gaps);
    }
    if lead, tokens, gaps :| IsReplyOf(reply, lead, tokens, gaps) && Describes(tokens, s) {
      assert reply[7..] == lead + Woven(tokens, gaps) && PREFIX <= reply;
      TokensOfWoven(lead, tokens, gaps);
      AcceptedExactlyWhen(reply, s);
    }
  }

  /** Some token is a field of this key with this number. */
  ghost predicate Holds(tokens: seq<string>, key: string, value: uint32) {
    exists t, digits | t in tokens && IsField(t, key, digits) :: NumberOf(digits) == value
  }

  function NumberOf(digits: string): nat { if AllDigits(digits) then DecimalValue(digits) else 0 }

  /** Every token is a field whose number fits 32 bits. */
  ghost predicate AllFields(tokens: seq<string>) {
    && (forall t | t in tokens :: exists key, digits :: IsField(t, key, digits))
    && forall t, key, digits | t in tokens && IsField(t, key, digits) :: NumberOf(digits) <= 0xffff_ffff
  }

  ghost predicate NoKeyTwice(tokens: seq<string>) {
    forall i, j, key, d, e | 0 <= i < j < |tokens| && IsField(tokens[i], key, d) :: !IsField(tokens[j], key, e)
  }

  /** What describing a status means in the text of the tokens. */
  lemma DescribesIs(tokens: seq<string>, s: Status)
    ensures Describes(tokens, s) <==>
      && AllFields(tokens) && NoKeyTwice(tokens)
      && Holds(tokens, "SLOT", s.slot) && Holds(tokens, "VERSION", s.version)
      && Holds(tokens, "CONFIRMED", s.confirmed) && Holds(tokens, "PENDING", s.pending)
      && Holds(tokens, "READY", s.ready) && s.slot <= 1 && s.ready <= 1
  {
    FieldsAre(tokens);
    if FieldsOk(tokens) {
      KeysAre(tokens);
      HoldsIs(tokens, "SLOT", s.slot);
      HoldsIs(tokens, "VERSION", s.version);
      HoldsIs(tokens, "CONFIRMED", s.confirmed);
      HoldsIs(tokens, "PENDING", s.pending);
      HoldsIs(tokens, "READY", s.ready);
    }
    hide FieldsOk, AllFields, NoKeyTwice, DistinctKeys, Holds, Gives;
  }

  lemma FieldsAre(tokens: seq<string>)
    ensures FieldsOk(tokens) <==> AllFields(tokens)
  {
    hide WellFormed, Value, DecimalValue;
    forall t | t in tokens ensures WellFormed(t) <==> exists key, digits :: IsField(t, key, digits) {
      WellFormedIs(t);
    }
    forall t, key, digits | t in tokens && IsField(t, key, digits)
      ensures WellFormed(t) && Value(t) == NumberOf(digits)
    {
      FieldIs(t, key, digits);
    }
  }

  lemma KeysAre(tokens: seq<string>)
    requires FieldsOk(tokens)
    ensures DistinctKeys(tokens) <==> NoKeyTwice(tokens)
  {
    hide WellFormed, Key, Value;
    forall t, key, digits | t in tokens && IsField(t, key, digits) ensures Key(t) == key {
      FieldIs(t, key, digits);
    }
    if NoKeyTwice(tokens) {
      forall i, j | 0 <= i < j < |tokens| ensures Key(tokens[i]) != Key(tokens[j]) {
        assert tokens[i] in tokens && tokens[j] in tokens;
        WellFormedIs(tokens[i]);
        WellFormedIs(tokens[j]);
        var k, d :| IsField(tokens[i], k, d);
        var l, e :| IsField(tokens[j], l, e);
      }
    }
  }

  lemma HoldsIs(tokens: seq<string>, key: string, value: uint32)
    requires FieldsOk(tokens)
    ensures Gives(tokens, key, value) <==> Holds(tokens, key, value)
  {
    hide WellFormed, Key, Value, DecimalValue;
    forall t, k, digits | t in tokens && IsField(t, k, digits) ensures Key(t) == k && Value(t) == NumberOf(digits) {
      FieldIs(t, k, digits);
    }
    if Gives(tokens, key, value) {
      var t :| t in tokens && Key(t) == key && Value(t) == value;
      WellFormedIs(t);
      var k, d :| IsField(t, k, d);
    }
  }
}
