/** The port list of an authorized key (core/internal/tunnelserver/server.go:569-581 and 604-612): it is
    joined with commas when the key is loaded and parsed again when the client connects. */
module PermittedPorts {
  import opened Options

  const UINT32 := 0x1_0000_0000
  const INT64 := 0x8000_0000_0000_0000

  // ----- strings.Join, strings.Split and strings.TrimSpace

  function Join(vs: seq<string>): string {
    if vs == [] then "" else if |vs| == 1 then vs[0] else vs[0] + "," + Join(vs[1..])
  }

  /** The fields between commas: one more than there are commas. */
  function Split(s: string): (fields: seq<string>)
    ensures fields != []
  {
    if s == "" then [""]
    else if s[0] == ',' then [""] + Split(s[1..])
    else
      var rest := Split(s[1..]);
      [[s[0]] + rest[0]] + rest[1..]
  }

  predicate Space(c: char) {
    c == ' ' || c == '\t' || c == '\n' || c == '\r' || c == 11 as char || c == 12 as char
  }

  function TrimSpace(s: string): string {
    if s == "" then s
    else if Space(s[0]) then TrimSpace(s[1..])
    else if Space(s[|s| - 1]) then TrimSpace(s[..|s| - 1])
    else s
  }

  /** Joining what was split gives the string back, and no field has a comma. */
  lemma {:induction false} JoinSplit(s: string)
    ensures Join(Split(s)) == s && forall i :: 0 <= i < |Split(s)| ==> ',' !in Split(s)[i]
  {
    if s != "" {
      JoinSplit(s[1..]);
      var rest := Split(s[1..]);
      if s[0] == ',' {
        assert ([""] + rest)[1..] == rest;
        assert s == "," + s[1..];
      } else {
        JoinPrefixed(s[0], rest);
        assert s == [s[0]] + s[1..];
      }
    }
  }

  lemma JoinPrefixed(c: char, fields: seq<string>)
    requires fields != []
    ensures Join([[c] + fields[0]] + fields[1..]) == [c] + Join(fields)
  {
    var all := [[c] + fields[0]] + fields[1..];
    if |fields| > 1 {
      assert all[1..] == fields[1..];
    }
  }

  predicate AllSpace(s: string) {
    forall i :: 0 <= i < |s| ==> Space(s[i])
  }

  lemma SpaceIs(c: char)
    ensures Space(c) <==> c as int in {9, 10, 11, 12, 13, 32}
  {
  }

  /** t is s without some spaces at both ends. */
  ghost predicate TrimmedBy(s: string, t: string, before: string, after: string) {
    s == before + t + after && AllSpace(before) && AllSpace(after)
  }

  lemma TrimmedFront(s: string, t: string, before: string, after: string)
    requires s != "" && Space(s[0]) && TrimmedBy(s[1..], t, before, after)
    ensures TrimmedBy(s, t, [s[0]] + before, after)
  {
    assert s == [s[0]] + s[1..];
  }

  lemma TrimmedBack(s: string, t: string, before: string, after: string)
    requires s != "" && Space(s[|s| - 1]) && TrimmedBy(s[..|s| - 1], t, before, after)
    ensures TrimmedBy(s, t, before, after + [s[|s| - 1]])
  {
    assert s == s[..|s| - 1] + [s[|s| - 1]];
  }

  /** TrimSpace takes spaces off both ends, and leaves none there. */
  lemma {:induction false} TrimSpaceIs(s: string) returns (before: string, after: string)
    ensures TrimmedBy(s, TrimSpace(s), before, after)
    ensures var t := TrimSpace(s); t == "" || (!Space(t[0]) && !Space(t[|t| - 1]))
    decreases |s|
  {
    before, after := "", "";
    if s == "" {
    } else if Space(s[0]) {
      before, after := TrimSpaceIs(s[1..]);
      TrimmedFront(s, TrimSpace(s), before, after);
      before := [s[0]] + before;
    } else if Space(s[|s| - 1]) {
      before, after := TrimSpaceIs(s[..|s| - 1]);
      TrimmedBack(s, TrimSpace(s), before, after);
      after := after + [s[|s| - 1]];
    }
  }

  // ----- strconv.Atoi on a 64-bit platform

  predicate Digit(c: char) { '0' <= c <= '9' }

  predicate Digits(s: string) {
    s != "" && forall i :: 0 <= i < |s| ==> Digit(s[i])
  }

  function Decimal(s: string): nat
    requires forall i :: 0 <= i < |s| ==> Digit(s[i])
  {
    if s == "" then 0
    else
      assert Digit(s[|s| - 1]);
      10 * Decimal(s[..|s| - 1]) + (s[|s| - 1] as int - '0' as int)
  }

  function Ten(n: nat): nat {
    if n == 0 then 1 else 10 * Ten(n - 1)
  }

  /** Digits count by their position: the value of a string is that of its first part, times a power of ten,
      and that of the rest. */
  lemma {:induction false} DecimalConcat(s: string, t: string)
    requires forall i :: 0 <= i < |s + t| ==> Digit((s + t)[i])
    ensures (forall i :: 0 <= i < |s| ==> Digit(s[i])) && (forall i :: 0 <= i < |t| ==> Digit(t[i]))
    ensures Decimal(s + t) == Decimal(s) * Ten(|t|) + Decimal(t)
  {
    assert forall i :: 0 <= i < |s| ==> s[i] == (s + t)[i];
    assert forall i :: 0 <= i < |t| ==> t[i] == (s + t)[|s| + i];
    if t == "" {
      assert s + t == s;
    } else {
      var n := |t| - 1;
      assert (s + t)[..|s + t| - 1] == s + t[..n];
      DecimalConcat(s, t[..n]);
      TensShift(Decimal(s), Ten(n), Decimal(t[..n]), t[n] as int - '0' as int);
    }
  }

  lemma TensShift(x: int, p: int, y: int, z: int)
    ensures 10 * (x * p + y) + z == x * (10 * p) + (10 * y + z)
  {
  }

  lemma DecimalDigit(c: char)
    requires Digit(c)
    ensures Decimal([c]) == c as int - 48 && 0 <= Decimal([c]) <= 9
  {
    assert [c][..0] == "";
  }

  /** The value of an optional sign and digits, if it fits an int64. */
  function Atoi(s: string): Option<int> {
    var sign := s != "" && (s[0] == '-' || s[0] == '+');
    var digits := if sign then s[1..] else s;
    if !Digits(digits) then None
    else
      var v := if sign && s[0] == '-' then 0 - Decimal(digits) else Decimal(digits) as int;
      if -INT64 <= v < INT64 then Some(v) else None
  }

  /** What Atoi accepts and returns: digits, after at most one sign, whose value fits 64 bits. */
  lemma AtoiReads(ds: string)
    requires Digits(ds)
    ensures Atoi(ds) == if Decimal(ds) <= 9223372036854775807 then Some(Decimal(ds)) else None
    ensures Atoi("+" + ds) == Atoi(ds)
    ensures Atoi("-" + ds) == if Decimal(ds) <= 9223372036854775808 then Some(0 - Decimal(ds)) else None
  {
    assert ("+" + ds)[1..] == ds && ("-" + ds)[1..] == ds;
  }

  lemma AtoiRefuses(s: string)
    requires !Digits(s) && (s == "" || !(s[0] == '+' || s[0] == '-') || !Digits(s[1..]))
    ensures Atoi(s) == None
  {
  }

  lemma TruncatedIs(n: int)
    ensures 0 <= Truncated(n) < 4294967296 && exists q :: n == Truncated(n) + 4294967296 * q
  {
    assert n == Truncated(n) + 4294967296 * (n / UINT32);
  }

  /** The conversion uint32(n). */
  function Truncated(n: int): nat { n % UINT32 }

  // ----- loading and parsing

  predicate Numeric(v: string) { Atoi(v).Some? }

  /** The part of loadAuthorized that collects the ports of one key: `values` are its permitlisten values,
      without quotes and host. */
  method CollectPorts(values: seq<string>) returns (ports: seq<string>)
    ensures ports == Accepted(values)
  {
    ports := [];
    for i := 0 to |values|
      invariant ports == Accepted(values[..i])
    {
      assert values[..i + 1][..i] == values[..i];
      if Atoi(values[i]).Some? {
        ports := ports + [values[i]];
      }
    }
    assert values[..|values|] == values;
  }

  function Accepted(values: seq<string>): (ports: seq<string>)
    ensures forall v :: v in ports <==> v in values && Numeric(v)
  {
    if values == [] then []
    else
      var n := |values| - 1;
      assert values == values[..n] + [values[n]];
      Accepted(values[..n]) + if Numeric(values[n]) then [values[n]] else []
  }

  /** Each value is accepted or left out by itself, and the order stays. */
  lemma {:induction false} AcceptedConcat(vs: seq<string>, ws: seq<string>)
    ensures Accepted(vs + ws) == Accepted(vs) + Accepted(ws)
  {
    if ws == [] {
      assert vs + ws == vs;
    } else {
      var n := |ws| - 1;
      assert (vs + ws)[..|vs + ws| - 1] == vs + ws[..n];
      AcceptedConcat(vs, ws[..n]);
    }
  }

  lemma AcceptedOne(v: string)
    ensures Accepted([v]) == if Atoi(v).Some? then [v] else []
  {
    assert [v][..0] == [];
  }

  function PortOf(field: string): Option<nat> {
    match Atoi(TrimSpace(field))
    case Some(n) => Some(Truncated(n))
    case None => None
  }

  ghost function PortsOf(fields: seq<string>): set<nat> {
    set i | 0 <= i < |fields| && PortOf(fields[i]).Some? :: PortOf(fields[i]).value
  }

  method ParsePorts(csv: string) returns (ports: set<nat>)
    ensures ports == PortsOf(Split(csv))
  {
    ports := {};
    var fields := Split(csv);
    for i := 0 to |fields|
      invariant ports == PortsOf(fields[..i])
    {
      var n := Atoi(TrimSpace(fields[i]));
      if n.Some? {
        ports := ports + {Truncated(n.value)};
      }
      OneMorePort(fields, i);
    }
    assert fields[..|fields|] == fields;
  }

  lemma OneMorePort(fields: seq<string>, i: nat)
    requires i < |fields|
    ensures PortsOf(fields[..i + 1]) ==
      PortsOf(fields[..i]) + if PortOf(fields[i]).Some? then {PortOf(fields[i]).value} else {}
  {
    PushPort(fields[..i], fields[i]);
    assert fields[..i + 1] == fields[..i] + [fields[i]];
  }

  lemma PushPort(fields: seq<string>, f: string)
    ensures PortsOf(fields + [f]) == PortsOf(fields) + if PortOf(f).Some? then {PortOf(f).value} else {}
  {
    var all := fields + [f];
    assert all[|fields|] == f;
    forall p | p in PortsOf(fields) ensures p in PortsOf(all) {
      var i :| 0 <= i < |fields| && PortOf(fields[i]).Some? && PortOf(fields[i]).value == p;
      assert all[i] == fields[i];
    }
  }

  // ----- the round trip

  predicate CommaFree(v: string) { ',' !in v }

  lemma {:induction false} SplitPlain(v: string)
    requires CommaFree(v)
    ensures Split(v) == [v]
  {
    if v != "" {
      SplitPlain(v[1..]);
      assert v == [v[0]] + v[1..];
    }
  }

  lemma {:induction false} SplitFirst(v: string, rest: string)
    requires CommaFree(v)
    ensures Split(v + "," + rest) == [v] + Split(rest)
  {
    var s := v + "," + rest;
    if v == "" {
      assert s == "," + rest && s[1..] == rest;
    } else {
      assert s[1..] == v[1..] + "," + rest;
      SplitFirst(v[1..], rest);
      assert v == [v[0]] + v[1..];
    }
  }

  /** Splitting what was joined gives the list back, for a non-empty list of comma-free strings. */
  lemma {:induction false} SplitJoin(vs: seq<string>)
    requires vs != [] && forall i :: 0 <= i < |vs| ==> CommaFree(vs[i])
    ensures Split(Join(vs)) == vs
  {
    if |vs| == 1 {
      SplitPlain(vs[0]);
    } else {
      SplitFirst(vs[0], Join(vs[1..]));
      SplitJoin(vs[1..]);
    }
  }

  /** A string that Atoi accepts has no comma and no surrounding space. */
  lemma NumericIsPlain(v: string)
    requires Numeric(v)
    ensures CommaFree(v) && TrimSpace(v) == v
  {
    var sign := v[0] == '-' || v[0] == '+';
    var digits := if sign then v[1..] else v;
    assert forall i :: 0 <= i < |v| ==> Digit(v[i]) || v[i] == '-' || v[i] == '+' by {
      forall i | 0 <= i < |v| ensures Digit(v[i]) || v[i] == '-' || v[i] == '+' {
        if sign && i > 0 {
          assert digits[i - 1] == v[i];
        }
      }
    }
  }

  /** For every list of permitlisten values, what a client may bind is exactly the set of the numeric
      values, truncated to uint32; nothing for a list without any. */
  method RoundTrip(values: seq<string>) returns (ports: set<nat>)
    ensures forall p :: p in ports <==> exists v :: v in values && Numeric(v) && p == Truncated(Atoi(v).value)
  {
    var accepted := CollectPorts(values);
    ports := ParsePorts(Join(accepted));
    AcceptedPorts(accepted);
    forall v | v in accepted ensures v in values && Numeric(v) {
    }
  }

  lemma AcceptedPorts(vs: seq<string>)
    requires forall v :: v in vs ==> Numeric(v)
    ensures forall p :: p in PortsOf(Split(Join(vs))) <==>
      exists v :: v in vs && Numeric(v) && p == Truncated(Atoi(v).value)
  {
    if vs == [] {
      assert Split("") == [""] && TrimSpace("") == "" && PortOf("").None?;
    } else {
      forall i | 0 <= i < |vs|
        ensures CommaFree(vs[i]) && Numeric(vs[i]) && PortOf(vs[i]) == Some(Truncated(Atoi(vs[i]).value))
      {
        NumericIsPlain(vs[i]);
      }
      SplitJoin(vs);
    }
  }
}
