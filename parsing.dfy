/** Startup configuration: turning the comma-separated knock sequence flag
    into the list of ports (server/server.go, parseKnockSequence). The library
    calls it relies on, strings.Split and strconv.Atoi, are modelled here too. */
module Parsing {
  import opened Types

  /** Range of Go's 64-bit int, which strconv.Atoi enforces. */
  const MinInt64: int := -0x8000_0000_0000_0000
  const MaxInt64: int := 0x7fff_ffff_ffff_ffff

  // ---------------------------------------------------------------------
  // strings.Split with a one-character separator

  /** The pieces of s between occurrences of sep, in order. There is always
      one more piece than there are separators, so "" gives [""] and
      "a,,b" gives ["a", "", "b"]. */
  function Split(s: string, sep: char): (fields: seq<string>)
    ensures |fields| >= 1
    decreases |s|
  {
    if s == [] then [[]]
    else
      var rest := Split(s[1..], sep);
      if s[0] == sep then [[]] + rest
      else [[s[0]] + rest[0]] + rest[1..]
  }

  /** There is one more field than there are separators, and no field
      contains a separator. */
  lemma {:induction false} SplitFields(s: string, sep: char)
    ensures |Split(s, sep)| == multiset(s)[sep] + 1
    ensures forall i :: 0 <= i < |Split(s, sep)| ==> sep !in Split(s, sep)[i]
    decreases |s|
  {
    if s != [] {
      assert s == [s[0]] + s[1..];
      SplitFields(s[1..], sep);
      var rest := Split(s[1..], sep);
      if s[0] != sep {
        var fields := Split(s, sep);
        forall i | 0 <= i < |fields| ensures sep !in fields[i] {
          if i > 0 { assert fields[i] == rest[i]; }
        }
      }
    }
  }

  /** strings.Join: the inverse of Split. */
  function Join(fields: seq<string>, sep: char): string
    requires |fields| >= 1
  {
    if |fields| == 1 then fields[0] else fields[0] + [sep] + Join(fields[1..], sep)
  }

  /** Splitting and joining again gives back the original string. */
  lemma {:induction false} JoinSplit(s: string, sep: char)
    ensures Join(Split(s, sep), sep) == s
    decreases |s|
  {
    if s != [] {
      var rest := Split(s[1..], sep);
      JoinSplit(s[1..], sep);
      if s[0] == sep {
        assert ([[]] + rest)[1..] == rest;
      } else if |rest| > 1 {
        var fields := [[s[0]] + rest[0]] + rest[1..];
        assert fields[1..] == rest[1..];
        assert Join(rest, sep) == rest[0] + [sep] + Join(rest[1..], sep);
      }
    }
  }

  /** A piece without a separator glues onto the first field of what follows. */
  lemma {:induction false} SplitPrefix(w: string, t: string, sep: char)
    requires sep !in w
    ensures Split(w + t, sep) == [w + Split(t, sep)[0]] + Split(t, sep)[1..]
    decreases |w|
  {
    if w != [] {
      assert (w + t)[1..] == w[1..] + t;
      SplitPrefix(w[1..], t, sep);
      assert [w[0]] + (w[1..] + Split(t, sep)[0]) == w + Split(t, sep)[0];
    } else {
      var rest := Split(t, sep);
      assert w + t == t && w + rest[0] == rest[0];
      assert rest == [rest[0]] + rest[1..];
    }
  }

  /** Joining separator-free fields and splitting again gives back the fields. */
  lemma {:induction false} SplitJoin(fields: seq<string>, sep: char)
    requires |fields| >= 1
    requires forall i :: 0 <= i < |fields| ==> sep !in fields[i]
    ensures Split(Join(fields, sep), sep) == fields
  {
    if |fields| == 1 {
      SplitPrefix(fields[0], [], sep);
      assert fields[0] + [] == fields[0];
    } else {
      var tail := Join(fields[1..], sep);
      SplitJoin(fields[1..], sep);
      assert ([sep] + tail)[1..] == tail;
      SplitPrefix(fields[0], [sep] + tail, sep);
      assert fields[0] + [sep] + tail == fields[0] + ([sep] + tail);
      assert fields[0] + [] == fields[0];
      assert fields == [fields[0]] + fields[1..];
    }
  }

  // ---------------------------------------------------------------------
  // strconv.Atoi

  predicate IsDigit(c: char) { '0' <= c <= '9' }

  function DigitValue(c: char): nat
    requires IsDigit(c)
  {
    c as int - '0' as int
  }

  /** The value of a non-empty string of decimal digits, most significant
      first; None for the empty string or any other character. */
  function Decimal(ds: string): Option<nat>
  {
    if ds == [] || !IsDigit(ds[|ds| - 1]) then None
    else if |ds| == 1 then Some(DigitValue(ds[0]))
    else match Decimal(ds[..|ds| - 1])
      case None => None
      case Some(v) => Some(v * 10 + DigitValue(ds[|ds| - 1]))
  }

  /** strconv.Atoi: an optional '+' or '-' followed by at least one decimal
      digit, and nothing else (no spaces, no underscores, no base prefix);
      leading zeros are fine; a value outside the 64-bit range is an error. */
  function Atoi(s: string): (r: Option<int>)
    ensures r.Some? ==> MinInt64 <= r.value <= MaxInt64
    ensures s == [] || s == "-" || s == "+" ==> r == None
  {
    var signed := |s| > 0 && (s[0] == '-' || s[0] == '+');
    match Decimal(if signed then s[1..] else s)
    case None => None
    case Some(magnitude) =>
      var v: int := if signed && s[0] == '-' then 0 - magnitude else magnitude;
      if MinInt64 <= v <= MaxInt64 then Some(v) else None
  }

  /** Decimal rendering of a natural number, most significant digit first. */
  function Digits(n: nat): string
    decreases n
  {
    var last := ('0' as int + n % 10) as char;
    if n < 10 then [last] else Digits(n / 10) + [last]
  }

  /** strconv.Itoa: how a port number is written in the flag. */
  function Itoa(n: int): string
  {
    if n < 0 then ['-'] + Digits(-n) else Digits(n)
  }

  lemma {:induction false} DigitsValue(n: nat)
    ensures Decimal(Digits(n)) == Some(n)
    ensures forall i :: 0 <= i < |Digits(n)| ==> IsDigit(Digits(n)[i])
    decreases n
  {
    var ds := Digits(n);
    if n >= 10 {
      DigitsValue(n / 10);
      assert ds[..|ds| - 1] == Digits(n / 10);
    }
  }

  /** Atoi reads back exactly the number Itoa wrote, for every 64-bit int. */
  lemma AtoiItoa(n: int)
    requires MinInt64 <= n <= MaxInt64
    ensures Atoi(Itoa(n)) == Some(n)
  {
    var m: nat := if n < 0 then -n else n;
    var ds := Digits(m);
    DigitsValue(m);
    assert ds != [];
    if n < 0 {
      var s := ['-'] + ds;
      assert s[1..] == ds;
    } else {
      assert IsDigit(ds[0]);
    }
  }

  /** A rendered number never contains the separator. */
  lemma ItoaNoComma(n: int)
    ensures ',' !in Itoa(n)
  {
    var m: nat := if n < 0 then -n else n;
    DigitsValue(m);
    var s := Itoa(n);
    forall i | 0 <= i < |s| ensures s[i] != ',' {
      if n < 0 && i > 0 { assert s[i] == Digits(m)[i - 1]; }
    }
  }

  // ---------------------------------------------------------------------
  // parseKnockSequence

  /** Every field parsed with Atoi, in order; None as soon as one field fails. */
  function ParseFields(fields: seq<string>): (r: Option<seq<int>>)
    ensures r.Some? <==> forall i :: 0 <= i < |fields| ==> Atoi(fields[i]).Some?
    ensures r.Some? ==> |r.value| == |fields| &&
                        forall i :: 0 <= i < |fields| ==> Atoi(fields[i]) == Some(r.value[i])
  {
    if fields == [] then Some([])
    else match Atoi(fields[0])
      case None => None
      case Some(port) =>
        match ParseFields(fields[1..])
        case None => None
        case Some(ports) => Some([port] + ports)
  }

  /** The knock sequence a configuration string denotes, or None when the
      server must refuse to start. */
  function KnockSequenceOf(config: string): (r: Option<seq<int>>)
    ensures r.Some? ==> |r.value| == multiset(config)[','] + 1
    ensures r.Some? ==> forall i :: 0 <= i < |r.value| ==> MinInt64 <= r.value[i] <= MaxInt64
  {
    SplitFields(config, ',');
    ParseFields(Split(config, ','))
  }

  /** parseKnockSequence: splits the flag at commas and fills an array with
      one port per field; a field that is not an integer aborts startup
      (log.Fatalf), which is the None result here. */
  method ParseKnockSequence(knockSequence: string) returns (r: Option<seq<int>>)
    ensures r == KnockSequenceOf(knockSequence)
    ensures r.Some? ==> |r.value| == multiset(knockSequence)[','] + 1
    ensures r.Some? ==> forall i :: 0 <= i < |r.value| ==>
              Atoi(Split(knockSequence, ',')[i]) == Some(r.value[i])
  {
    var fields := Split(knockSequence, ',');
    SplitFields(knockSequence, ',');
    var ports := new int[|fields|];
    for i := 0 to |fields|
      invariant forall j :: 0 <= j < i ==> Atoi(fields[j]) == Some(ports[j])
    {
      var port := Atoi(fields[i]);
      if port.None? {
        assert !ParseFields(fields).Some?;
        return None;
      }
      ports[i] := port.value;
    }
    var parsed := ParseFields(fields);
    assert parsed.Some?;
    assert |parsed.value| == ports.Length;
    assert forall j :: 0 <= j < ports.Length ==> parsed.value[j] == ports[j];
    assert ports[..] == parsed.value;
    r := Some(ports[..]);
  }

  /** The flag text for a list of ports: the ports written with Itoa and
      separated by commas. */
  function Format(ports: seq<int>): string
    requires |ports| >= 1
  {
    Join(Rendered(ports), ',')
  }

  function Rendered(ports: seq<int>): (fields: seq<string>)
    ensures |fields| == |ports|
    ensures forall i :: 0 <= i < |ports| ==> fields[i] == Itoa(ports[i])
  {
    if ports == [] then [] else [Itoa(ports[0])] + Rendered(ports[1..])
  }

  /** Any non-empty list of 64-bit ints is accepted back exactly, so the
      parser rejects neither duplicate ports nor zero or negative ones. */
  lemma ParseFormat(ports: seq<int>)
    requires |ports| >= 1
    requires forall i :: 0 <= i < |ports| ==> MinInt64 <= ports[i] <= MaxInt64
    ensures KnockSequenceOf(Format(ports)) == Some(ports)
  {
    var fields := Rendered(ports);
    forall i | 0 <= i < |ports|
      ensures Atoi(fields[i]) == Some(ports[i]) && ',' !in fields[i]
    {
      AtoiItoa(ports[i]);
      ItoaNoComma(ports[i]);
    }
    SplitJoin(fields, ',');
    var parsed := ParseFields(fields);
    assert parsed.Some?;
    assert parsed.value == ports;
  }

  /** A configuration with an empty field (a leading, trailing or doubled
      comma, or the empty string itself) is refused. */
  lemma EmptyFieldRejected(config: string, i: nat)
    requires i < |Split(config, ',')| && Split(config, ',')[i] == []
    ensures KnockSequenceOf(config) == None
  {
  }
}
