/** The binary primary-key component for a capability scope: a tag byte and length-prefixed parts
    (crates/center-adapter-sql/src/cloud_capabilities.rs). */
module ScopeKeys {
  import opened Basics

  const MAX_SCOPE_KEY_LEN := 2_048
  const U32_END := 0x1_0000_0000

  datatype Scope =
    | Account
    | Region(region: Bytes)
    | Resource(kind: Bytes, account: Bytes, external: Bytes)

  datatype Failure = ComponentTooLong | KeyTooLong

  /** `u32::to_be_bytes`. */
  function BigEndian(n: nat): (r: Bytes)
    requires n < U32_END
    ensures |r| == 4
    ensures (((r[0] as int) * 256 + (r[1] as int)) * 256 + (r[2] as int)) * 256 + (r[3] as int) == n
  {
    var high := n / 256;
    var higher := high / 256;
    [(higher / 256) as Byte, (higher % 256) as Byte, (high % 256) as Byte, (n % 256) as Byte]
  }

  /** `append_component`: the buffer grows by the length prefix and the bytes themselves. */
  function AppendComponent(target: Bytes, value: Bytes): Result<Bytes, Failure> {
    if |value| >= U32_END then Err(ComponentTooLong) else Ok(target + BigEndian(|value|) + value)
  }

  function Prefixed(value: Bytes): Bytes
    requires |value| < U32_END
  {
    BigEndian(|value|) + value
  }

  /** `scope_key`: the buffer starts with the tag byte and is then extended in place. */
  method ScopeKey(scope: Scope) returns (r: Result<Bytes, Failure>)
    ensures r == KeyOf(scope)
  {
    var key: Bytes := [];
    match scope {
      case Account =>
        key := key + [97];
        assert key == Encoding(scope);
      case Region(region) =>
        key := key + [114];
        var a := AppendComponent(key, region);
        if a.Err? { return a; }
        key := a.value;
        OnePart(scope);
      case Resource(kind, account, external) =>
        key := key + [120];
        var a := AppendComponent(key, kind);
        if a.Err? { return a; }
        var b := AppendComponent(a.value, account);
        if b.Err? { return b; }
        var c := AppendComponent(b.value, external);
        if c.Err? { return c; }
        key := c.value;
        ThreeParts(scope);
    }
    if |key| > MAX_SCOPE_KEY_LEN {
      return Err(KeyTooLong);
    }
    r := Ok(key);
  }

  lemma OnePart(scope: Scope)
    requires scope.Region? && Fits(scope)
    ensures [] + [114] + BigEndian(|scope.region|) + scope.region == Encoding(scope)
  {
    Regroup([114], BigEndian(|scope.region|), scope.region, []);
  }

  lemma ThreeParts(scope: Scope)
    requires scope.Resource? && Fits(scope)
    ensures var a := [] + [120] + BigEndian(|scope.kind|) + scope.kind;
      a + BigEndian(|scope.account|) + scope.account + BigEndian(|scope.external|) + scope.external == Encoding(scope)
  {
    var k, a, e := Prefixed(scope.kind), Prefixed(scope.account), Prefixed(scope.external);
    Regroup([120], BigEndian(|scope.kind|), scope.kind, []);
    Regroup([120] + k, BigEndian(|scope.account|), scope.account, []);
    Regroup([120] + k + a, BigEndian(|scope.external|), scope.external, []);
    Nest([120], k, a, e);
  }

  lemma Regroup(a: Bytes, b: Bytes, c: Bytes, none: Bytes)
    requires none == []
    ensures none + a + b + c == a + (b + c) == a + ((b + c) + none) && a + b + c == a + (b + c)
  {
  }

  lemma Nest(a: Bytes, b: Bytes, c: Bytes, d: Bytes)
    ensures a + b + c + d == a + (b + (c + (d + [])))
  {
  }

  predicate Fits(scope: Scope) {
    match scope
    case Account => true
    case Region(region) => |region| < U32_END
    case Resource(kind, account, external) => |kind| < U32_END && |account| < U32_END && |external| < U32_END
  }

  function Tag(scope: Scope): Byte {
    match scope
    case Account => 97
    case Region(_) => 114
    case Resource(_, _, _) => 120
  }

  function Parts(scope: Scope): Bytes
    requires Fits(scope)
  {
    match scope
    case Account => []
    case Region(region) => Prefixed(region) + []
    case Resource(kind, account, external) => Prefixed(kind) + (Prefixed(account) + (Prefixed(external) + []))
  }

  function Encoding(scope: Scope): Bytes
    requires Fits(scope)
  {
    [Tag(scope)] + Parts(scope)
  }

  function KeyOf(scope: Scope): Result<Bytes, Failure> {
    if !Fits(scope) then Err(ComponentTooLong)
    else if |Encoding(scope)| > MAX_SCOPE_KEY_LEN then Err(KeyTooLong)
    else Ok(Encoding(scope))
  }

  /** A length-prefixed part can be read back from the front of any buffer. */
  lemma PrefixedSplits(a: Bytes, b: Bytes, x: Bytes, y: Bytes)
    requires |a| < U32_END && |b| < U32_END && Prefixed(a) + x == Prefixed(b) + y
    ensures a == b && x == y
  {
    assert BigEndian(|a|) == (Prefixed(a) + x)[..4] == (Prefixed(b) + y)[..4] == BigEndian(|b|);
    assert a == (Prefixed(a) + x)[4..4 + |a|];
    assert b == (Prefixed(b) + y)[4..4 + |b|];
    assert x == (Prefixed(a) + x)[4 + |a|..];
    assert y == (Prefixed(b) + y)[4 + |b|..];
  }

  /** Distinct scopes never share a row. */
  lemma ScopeKeyInjective(s: Scope, t: Scope)
    requires KeyOf(s).Ok? && KeyOf(s) == KeyOf(t)
    ensures s == t
  {
    assert Encoding(s)[0] == Tag(s) && Encoding(t)[0] == Tag(t);
    assert Encoding(s)[1..] == Parts(s) && Encoding(t)[1..] == Parts(t);
    match s
    case Account =>
    case Region(region) =>
      PrefixedSplits(region, t.region, [], []);
    case Resource(kind, account, external) =>
      PrefixedSplits(kind, t.kind, Prefixed(account) + (Prefixed(external) + []),
          Prefixed(t.account) + (Prefixed(t.external) + []));
      PrefixedSplits(account, t.account, Prefixed(external) + [], Prefixed(t.external) + []);
      PrefixedSplits(external, t.external, [], []);
  }
}
