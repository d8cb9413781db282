/** The status line of the device: its fields, the parser, and when the parser accepts. */
module OtaStatus {
  import opened Wrappers
  import opened Bytes

  datatype Status = Status(slot: uint32, version: uint32, confirmed: uint32, pending: uint32, ready: uint32)

  datatype StatusError =
    NotAnOtaReply | Malformed | ValueOutOfRange | InvalidField | MissingField | InvalidSlotOrReadiness

  const PREFIX := "OK OTA "
  const MAX_UINT32: nat := 0xffff_ffff
  const MAX_UINT64: nat := 0xffff_ffff_ffff_ffff

  // ---------------------------------------------------------------- tokens

  predicate IsSpace(c: char) { c == ' ' || '\t' <= c <= '\r' }
  predicate IsDigit(c: char) { '0' <= c <= '9' }
  predicate AllSpaces(s: string) { forall c | c in s :: IsSpace(c) }
  predicate AllDigits(s: string) { forall c | c in s :: IsDigit(c) }
  predicate NoSpaces(s: string) { forall c | c in s :: !IsSpace(c) }

  function SkipSpaces(s: string): (rest: string)
    ensures |rest| <= |s|
    ensures rest != "" ==> !IsSpace(rest[0])
  {
    if s != "" && IsSpace(s[0]) then SkipSpaces(s[1..]) else s
  }

  /** The length of the longest prefix without white space. */
  function TokenLength(s: string): (n: nat)
    ensures n <= |s| && NoSpaces(s[..n]) && (n < |s| ==> IsSpace(s[n]))
  {
    if s != "" && !IsSpace(s[0]) then
      var n := TokenLength(s[1..]);
      assert s[..n + 1] == [s[0]] + s[1..][..n];
      n + 1
    else 0
  }

  /** What repeated extraction from a stream yields. */
  function Tokens(s: string): seq<string>
    decreases |s|
  {
    var rest := SkipSpaces(s);
    var n := TokenLength(rest);
    if rest == "" then [] else [rest[..n]] + Tokens(rest[n..])
  }

  // ---------------------------------------------------------------- fields

  /** The position of the first '='. */
  function FindEquals(t: string): (p: Option<nat>)
    ensures p.Some? ==> p.value < |t| && t[p.value] == '=' && '=' !in t[..p.value]
    ensures p.None? ==> '=' !in t
  {
    if t == "" then None
    else if t[0] == '=' then Some(0)
    else
      var p := FindEquals(t[1..]);
      if p.None? then None
      else
        assert t[..p.value + 1] == [t[0]] + t[1..][..p.value];
        Some(p.value + 1)
  }

  predicate WellFormed(t: string) {
    var p := FindEquals(t);
    p.Some? && p.value + 1 < |t| && AllDigits(t[p.value + 1..])
  }

  function Key(t: string): string requires WellFormed(t) { t[..FindEquals(t).value] }

  function DecimalValue(s: string): nat
    requires AllDigits(s)
  {
    if s == "" then 0
    else
      assert IsDigit(s[|s| - 1]);
      DecimalValue(s[..|s| - 1]) * 10 + (s[|s| - 1] as int - '0' as int)
  }

  function Value(t: string): nat requires WellFormed(t) { DecimalValue(t[FindEquals(t).value + 1..]) }

  type Fields = map<string, uint32>

  function AddToken(fields: Fields, t: string): Result<Fields, StatusError> {
    if !WellFormed(t) then Failure(Malformed)
    else if Value(t) > MAX_UINT64 then Failure(ValueOutOfRange)
    else if Value(t) > MAX_UINT32 || Key(t) in fields then Failure(InvalidField)
    else Success(fields[Key(t) := Value(t)])
  }

  function AddTokens(fields: Fields, tokens: seq<string>): Result<Fields, StatusError>
    decreases |tokens|
  {
    if tokens == [] then Success(fields)
    else
      var next := AddToken(fields, tokens[0]);
      if next.Failure? then next else AddTokens(next.value, tokens[1..])
  }

  function StatusOf(fields: Fields): Result<Status, StatusError> {
    if !({"SLOT", "VERSION", "CONFIRMED", "PENDING", "READY"} <= fields.Keys) then Failure(MissingField)
    else if !(fields["SLOT"] < 2 && fields["READY"] <= 1) then Failure(InvalidSlotOrReadiness)
    else Success(Status(fields["SLOT"], fields["VERSION"], fields["CONFIRMED"], fields["PENDING"], fields["READY"]))
  }

  function Parsed(reply: string): Result<Status, StatusError> {
    if !(PREFIX <= reply) then Failure(NotAnOtaReply)
    else
      var fields := AddTokens(map[], Tokens(reply[7..]));
      if fields.Failure? then Failure(fields.error) else StatusOf(fields.value)
  }

  method ParseOtaStatus(reply: string) returns (r: Result<Status, StatusError>)
    ensures r == Parsed(reply)
  {
    if !(PREFIX <= reply) {
      return Failure(NotAnOtaReply);
    }
    var fields: Fields := map[];
    var input := SkipSpaces(reply[7..]);
    TokensSkip(reply[7..]);
    while input != ""
      invariant input == SkipSpaces(input)
      invariant AddTokens(fields, Tokens(input)) == AddTokens(map[], Tokens(reply[7..]))
      decreases |input|
    {
      var n := TokenLength(input);
      var token := input[..n];
      var p := FindEquals(token);
      if !(p.Some? && p.value + 1 < |token| && AllDigits(token[p.value + 1..])) {
        return Failure(Malformed);
      }
      var value := DecimalValue(token[p.value + 1..]);
      if value > MAX_UINT64 {
        return Failure(ValueOutOfRange);
      }
      if !(value <= MAX_UINT32 && token[..p.value] !in fields) {
        return Failure(InvalidField);
      }
      fields := fields[token[..p.value] := value];
      TokensSkip(input[n..]);
      input := SkipSpaces(input[n..]);
    }
    r := StatusOf(fields);
  }

  lemma TokensSkip(s: string)
    ensures SkipSpaces(SkipSpaces(s)) == SkipSpaces(s) && Tokens(SkipSpaces(s)) == Tokens(s)
  {
  }

  // ---------------------------------------------------------------- when the parser accepts

  predicate FieldsOk(tokens: seq<string>) {
    forall t | t in tokens :: WellFormed(t) && Value(t) <= MAX_UINT32
  }

  predicate DistinctKeys(tokens: seq<string>)
    requires FieldsOk(tokens)
  {
    forall i, j | 0 <= i < j < |tokens| :: Key(tokens[i]) != Key(tokens[j])
  }

  /** Some token gives the key this value. */
  predicate Gives(tokens: seq<string>, key: string, value: uint32)
    requires FieldsOk(tokens)
  {
    exists t | t in tokens :: Key(t) == key && Value(t) == value
  }

  predicate Maps(fields: Fields, key: string, value: uint32) { key in fields && fields[key] == value }

  predicate NoKeyIn(tokens: seq<string>, fields: Fields)
    requires FieldsOk(tokens)
  {
    forall t | t in tokens :: Key(t) !in fields
  }

  lemma TokensSucceed(fields: Fields, tokens: seq<string>)
    ensures AddTokens(fields, tokens).Success? <==>
      FieldsOk(tokens) && DistinctKeys(tokens) && NoKeyIn(tokens, fields)
    decreases |tokens|
  {
    hide WellFormed, Key, Value;
    if tokens != [] {
      var t, rest := tokens[0], tokens[1..];
      assert tokens == [t] + rest;
      var next := AddToken(fields, t);
      if next.Success? {
        TokensSucceed(next.value, rest);
        if FieldsOk(rest) { DistinctKeysCons(t, rest); }
      } else {
        assert t in tokens;
      }
    }
  }

  lemma DistinctKeysCons(t: string, rest: seq<string>)
    requires FieldsOk([t] + rest) && FieldsOk(rest)
    ensures DistinctKeys([t] + rest) <==> DistinctKeys(rest) && forall u | u in rest :: Key(u) != Key(t)
  {
    hide WellFormed, Key, Value;
    var tokens := [t] + rest;
    if DistinctKeys(tokens) {
      forall i, j | 0 <= i < j < |rest| ensures Key(rest[i]) != Key(rest[j]) {
        assert Key(tokens[i + 1]) != Key(tokens[j + 1]);
      }
      forall u | u in rest ensures Key(u) != Key(t) {
        var i :| 0 <= i < |rest| && rest[i] == u;
        assert Key(tokens[0]) != Key(tokens[i + 1]);
      }
    } else {
      var i, j :| 0 <= i < j < |tokens| && Key(tokens[i]) == Key(tokens[j]);
      assert tokens[j] == rest[j - 1];
      if i > 0 { assert Key(rest[i - 1]) == Key(rest[j - 1]); }
    }
  }

  lemma TokensMap(fields: Fields, tokens: seq<string>, key: string, value: uint32)
    requires AddTokens(fields, tokens).Success?
    ensures FieldsOk(tokens)
    ensures Maps(AddTokens(fields, tokens).value, key, value) <==> Maps(fields, key, value) || Gives(tokens, key, value)
    decreases |tokens|
  {
    TokensSucceed(fields, tokens);
    hide WellFormed, Key, Value;
    if tokens != [] {
      var t, rest := tokens[0], tokens[1..];
      assert tokens == [t] + rest;
      var next := AddToken(fields, t);
      TokensMap(next.value, rest, key, value);
    }
  }

  /**
   Exactly which replies are accepted, and as what: every token is a field with a 32-bit value, no key repeats, and the
   five keys are given the status's values, of which slot is below 2 and ready at most 1.
   */
  predicate Describes(tokens: seq<string>, s: Status) {
    && FieldsOk(tokens) && DistinctKeys(tokens)
    && Gives(tokens, "SLOT", s.slot) && Gives(tokens, "VERSION", s.version)
    && Gives(tokens, "CONFIRMED", s.confirmed) && Gives(tokens, "PENDING", s.pending)
    && Gives(tokens, "READY", s.ready) && s.slot < 2 && s.ready <= 1
  }

  lemma AcceptedExactlyWhen(reply: string, s: Status)
    requires PREFIX <= reply
    ensures Parsed(reply) == Success(s) <==> Describes(Tokens(reply[7..]), s)
  {
    hide WellFormed, Key, Value, Tokens;
    var tokens := Tokens(reply[7..]);
    TokensSucceed(map[], tokens);
    if AddTokens(map[], tokens).Success? {
      TokensMap(map[], tokens, "SLOT", s.slot);
      TokensMap(map[], tokens, "VERSION", s.version);
      TokensMap(map[], tokens, "CONFIRMED", s.confirmed);
      TokensMap(map[], tokens, "PENDING", s.pending);
      TokensMap(map[], tokens, "READY", s.ready);
      StatusExactlyWhen(AddTokens(map[], tokens).value, s);
    }
  }

  lemma StatusExactlyWhen(fields: Fields, s: Status)
    ensures StatusOf(fields) == Success(s) <==>
      && Maps(fields, "SLOT", s.slot) && Maps(fields, "VERSION", s.version) && Maps(fields, "CONFIRMED", s.confirmed)
      && Maps(fields, "PENDING", s.pending) && Maps(fields, "READY", s.ready) && s.slot < 2 && s.ready <= 1
  {
  }
}
