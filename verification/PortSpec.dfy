/** Port lists: the parser of internal/config/proxy.go and the printer of
    internal/iptables/rules.go. */
module PortSpec {
  import opened Common

  datatype Error = EmptySpec | BadLow | BadHigh | BadPort | OutOfRange | LowNotBelowHigh | NoPorts

  datatype Result<+T> = Ok(value: T) | Err(error: Error)

  const MAX_PORT: int := 65535

  // ---------------------------------------------------------------- strings

  /** White space as `strings.TrimSpace` sees it. */
  predicate IsSpace(c: char) {
    var n := c as int;
    9 <= n <= 13 || n == 0x20 || n == 0x85 || n == 0xA0 || n == 0x1680 || 0x2000 <= n <= 0x200A
    || n == 0x2028 || n == 0x2029 || n == 0x202F || n == 0x205F || n == 0x3000
  }

  function TrimLeft(s: string): string {
    if s != "" && IsSpace(s[0]) then TrimLeft(s[1..]) else s
  }

  function TrimRight(s: string): string {
    if s != "" && IsSpace(s[|s| - 1]) then TrimRight(s[..|s| - 1]) else s
  }

  function TrimSpace(s: string): string {
    TrimRight(TrimLeft(s))
  }

  function Split(s: string, sep: char): (r: seq<string>)
    ensures |r| >= 1
  {
    if s == "" then [""]
    else
      var r := Split(s[1..], sep);
      if s[0] == sep then [""] + r else [[s[0]] + r[0]] + r[1..]
  }

  function Join(parts: seq<string>): string {
    if parts == [] then ""
    else if |parts| == 1 then parts[0]
    else parts[0] + "," + Join(parts[1..])
  }

  /** Position of the first `c`. */
  function IndexOf(s: string, c: char): (i: nat)
    requires c in s
    ensures i < |s| && s[i] == c && c !in s[..i]
  {
    if s[0] == c then 0 else 1 + IndexOf(s[1..], c)
  }

  // ---------------------------------------------------------------- numbers

  predicate IsDigit(c: char) { '0' <= c <= '9' }

  predicate Digits(s: string) {
    forall i :: 0 <= i < |s| ==> IsDigit(s[i])
  }

  function Value(s: string): nat
    requires Digits(s)
  {
    if s == "" then 0 else 10 * Value(s[..|s| - 1]) + (s[|s| - 1] as int - '0' as int)
  }

  /** An optional sign and at least one decimal digit, in the 64-bit range. */
  function Atoi(s: string): Option<int> {
    var signed := s != "" && (s[0] == '+' || s[0] == '-');
    var digits := if signed then s[1..] else s;
    if digits == "" || !Digits(digits) then None
    else
      var m: int := Value(digits);
      var v := if signed && s[0] == '-' then -m else m;
      if -0x8000_0000_0000_0000 <= v < 0x8000_0000_0000_0000 then Some(v) else None
  }

  function Itoa(n: int): string
    decreases n < 0, n
  {
    if n < 0 then "-" + Itoa(-n)
    else if n < 10 then [('0' as int + n) as char]
    else Itoa(n / 10) + [('0' as int + n % 10) as char]
  }

  lemma {:induction false} ItoaIsDecimal(n: nat)
    ensures Itoa(n) != "" && Digits(Itoa(n)) && Value(Itoa(n)) == n
  {
    if n >= 10 {
      ItoaIsDecimal(n / 10);
      var s := Itoa(n);
      assert s[..|s| - 1] == Itoa(n / 10);
    }
  }

  lemma {:induction false} LeadingZeros(zeros: string, s: string)
    requires Digits(s) && forall i :: 0 <= i < |zeros| ==> zeros[i] == '0'
    ensures Digits(zeros + s) && Value(zeros + s) == Value(s)
    decreases |zeros| + |s|
  {
    if s != "" {
      LeadingZeros(zeros, s[..|s| - 1]);
      assert (zeros + s)[..|zeros + s| - 1] == zeros + s[..|s| - 1];
    } else if zeros != "" {
      LeadingZeros(zeros[..|zeros| - 1], s);
      assert (zeros + s)[..|zeros + s| - 1] == zeros[..|zeros| - 1] + s;
    }
  }

  /** Leading zeros and a sign are read as such. */
  lemma AtoiForms(zeros: string, n: int)
    requires 0 <= n < 0x8000_0000_0000_0000 && forall i :: 0 <= i < |zeros| ==> zeros[i] == '0'
    ensures Atoi(zeros + Itoa(n)) == Atoi("+" + (zeros + Itoa(n))) == Some(n)
    ensures Atoi("-" + (zeros + Itoa(n))) == Some(-n)
  {
    ItoaIsDecimal(n);
    LeadingZeros(zeros, Itoa(n));
    var d := zeros + Itoa(n);
    assert IsDigit(d[0]);
    assert ("+" + d)[1..] == d && ("-" + d)[1..] == d;
    hide Itoa, Value, Digits;
  }

  lemma AtoiItoa(n: nat)
    requires n <= MAX_PORT
    ensures Atoi(Itoa(n)) == Some(n)
  {
    ItoaIsDecimal(n);
    assert IsDigit(Itoa(n)[0]);
  }

  // ---------------------------------------------------------------- the specification

  predicate InRange(n: int) { 1 <= n <= MAX_PORT }

  /** The ports `lo`, ..., `hi` - 1. */
  function Range(lo: int, hi: int): (r: seq<int>)
    requires lo <= hi
    ensures |r| == hi - lo && forall i :: 0 <= i < |r| ==> r[i] == lo + i
  {
    seq(hi - lo, i => lo + i)
  }

  /** The ports named by one comma-separated part; a blank part names none. */
  function Piece(part: string): (r: Result<seq<int>>)
    ensures r.Ok? ==> forall n :: n in r.value ==> InRange(n)
  {
    var p := TrimSpace(part);
    if p == "" then Ok([])
    else if ':' in p then
      var i := IndexOf(p, ':');
      var lo, hi := Atoi(TrimSpace(p[..i])), Atoi(TrimSpace(p[i + 1..]));
      if lo.None? then Err(BadLow)
      else if hi.None? then Err(BadHigh)
      else if !InRange(lo.value) || !InRange(hi.value) then Err(OutOfRange)
      else if lo.value >= hi.value then Err(LowNotBelowHigh)
      else Ok(Range(lo.value, hi.value + 1))
    else
      var n := Atoi(p);
      if n.None? then Err(BadPort)
      else if !InRange(n.value) then Err(OutOfRange)
      else Ok([n.value])
  }

  /** All parts in order, or the first error. */
  function Pieces(parts: seq<string>): (r: Result<seq<int>>)
    ensures r.Ok? ==> forall n :: n in r.value ==> InRange(n)
  {
    if parts == [] then Ok([])
    else
      var init := Pieces(parts[..|parts| - 1]);
      if init.Err? then init
      else
        var last := Piece(parts[|parts| - 1]);
        if last.Err? then last else Ok(init.value + last.value)
  }

  /** Keeps the first occurrence of each port. */
  function Dedup(xs: seq<int>): seq<int> {
    if xs == [] then []
    else
      var init, x := Dedup(xs[..|xs| - 1]), xs[|xs| - 1];
      if x in init then init else init + [x]
  }

  lemma {:induction false} DedupIsDistinct(xs: seq<int>)
    ensures Distinct(Dedup(xs)) && forall x :: x in Dedup(xs) <==> x in xs
  {
    if xs != [] {
      DedupIsDistinct(xs[..|xs| - 1]);
      assert xs == xs[..|xs| - 1] + [xs[|xs| - 1]];
    }
  }

  /** Ports come in the order in which they are first named. */
  lemma {:induction false} DedupKeepsOrder(xs: seq<int>, i: nat, j: nat) returns (p: nat)
    requires i < j < |Dedup(xs)|
    ensures p < |xs| && xs[p] == Dedup(xs)[i] && Dedup(xs)[j] !in xs[..p + 1]
  {
    var init := xs[..|xs| - 1];
    DedupIsDistinct(init);
    if j < |Dedup(init)| {
      p := DedupKeepsOrder(init, i, j);
      assert xs[..p + 1] == init[..p + 1];
    } else {
      assert Dedup(init)[i] in Dedup(init);
      p :| 0 <= p < |init| && init[p] == Dedup(init)[i];
      assert forall k :: 0 <= k <= p ==> xs[k] == init[k] && init[k] in init;
    }
  }

  predicate Distinct(xs: seq<int>) {
    forall i, j :: 0 <= i < j < |xs| ==> xs[i] != xs[j]
  }

  function Parse(spec: string): Result<seq<int>> {
    var s := TrimSpace(spec);
    if s == "" then Err(EmptySpec)
    else
      var all := Pieces(Split(s, ','));
      if all.Err? then all
      else if Dedup(all.value) == [] then Err(NoPorts)
      else Ok(Dedup(all.value))
  }

  predicate Contiguous(ports: seq<int>) {
    forall i :: 1 <= i < |ports| ==> ports[i] == ports[i - 1] + 1
  }

  function Numerals(ports: seq<int>): (r: seq<string>)
    ensures |r| == |ports|
    ensures forall i :: 0 <= i < |ports| ==> r[i] == Itoa(ports[i])
  {
    seq(|ports|, i requires 0 <= i < |ports| => Itoa(ports[i]))
  }

  function PortList(ports: seq<int>): string {
    if |ports| > 1 && Contiguous(ports) then Itoa(ports[0]) + ":" + Itoa(ports[|ports| - 1])
    else Join(Numerals(ports))
  }

  // ---------------------------------------------------------------- the two programs

  method ParsePortRange(spec: string) returns (r: Result<seq<int>>)
    ensures r == Parse(spec)
  {
    hide IsSpace, TrimSpace, Atoi, Split, Dedup, Pieces;
    var s := TrimSpace(spec);
    if s == "" { return Err(EmptySpec); }
    var parts := Split(s, ',');
    var out: seq<int> := [];
    var seen: set<int> := {};
    ghost var all: seq<int> := [];
    NothingParsed(parts);
    for k := 0 to |parts|
      invariant Pieces(parts[..k]) == Ok(all)
      invariant out == Dedup(all) && Seen(seen, out)
    {
      PiecesStep(parts, k);
      var p := TrimSpace(parts[k]);
      if p == "" {
        assert all + [] == all;
      } else if ':' in p {
        var i := IndexOf(p, ':');
        var lo := Atoi(TrimSpace(p[..i]));
        if lo.None? {
          FirstError(parts, k);
          return Err(BadLow);
        }
        var hi := Atoi(TrimSpace(p[i + 1..]));
        if hi.None? {
          FirstError(parts, k);
          return Err(BadHigh);
        }
        if lo.value <= 0 || lo.value > 65535 || hi.value <= 0 || hi.value > 65535 {
          FirstError(parts, k);
          return Err(OutOfRange);
        }
        if lo.value >= hi.value {
          FirstError(parts, k);
          return Err(LowNotBelowHigh);
        }
        out, seen := AddRange(lo.value, hi.value, out, seen, all);
        all := all + Range(lo.value, hi.value + 1);
      } else {
        var n := Atoi(p);
        if n.None? {
          FirstError(parts, k);
          return Err(BadPort);
        }
        if n.value <= 0 || n.value > 65535 {
          FirstError(parts, k);
          return Err(OutOfRange);
        }
        DedupAppend(all, n.value);
        if n.value !in seen {
          seen := seen + {n.value};
          out := out + [n.value];
        }
        all := all + [n.value];
      }
    }
    assert parts[..|parts|] == parts;
    if |out| == 0 { return Err(NoPorts); }
    r := Ok(out);
  }

  /** The loop over one range. */
  method AddRange(lo: int, hi: int, before: seq<int>, known: set<int>, ghost all: seq<int>)
    returns (out: seq<int>, seen: set<int>)
    requires lo < hi && before == Dedup(all) && Seen(known, before)
    ensures out == Dedup(all + Range(lo, hi + 1)) && Seen(seen, out)
  {
    hide Dedup;
    out, seen := before, known;
    assert all + Range(lo, lo) == all;
    for i := lo to hi + 1
      invariant out == Dedup(all + Range(lo, i)) && Seen(seen, out)
    {
      assert all + Range(lo, i + 1) == all + Range(lo, i) + [i];
      DedupAppend(all + Range(lo, i), i);
      if i !in seen {
        seen := seen + {i};
        out := out + [i];
      }
    }
  }

  lemma NothingParsed(parts: seq<string>)
    ensures Pieces(parts[..0]) == Ok([]) && Dedup([]) == []
  {
  }

  lemma PiecesStep(parts: seq<string>, k: nat)
    requires k < |parts| && Pieces(parts[..k]).Ok?
    ensures Piece(parts[k]).Ok? ==> Pieces(parts[..k + 1]) == Ok(Pieces(parts[..k]).value + Piece(parts[k]).value)
  {
    assert parts[..k + 1][..k] == parts[..k];
  }

  ghost predicate Seen(seen: set<int>, out: seq<int>) {
    forall n :: n in seen <==> n in out
  }

  lemma DedupAppend(xs: seq<int>, x: int)
    ensures Dedup(xs + [x]) == if x in Dedup(xs) then Dedup(xs) else Dedup(xs) + [x]
  {
    assert (xs + [x])[..|xs|] == xs;
  }

  /** The first part in error decides. */
  lemma FirstError(parts: seq<string>, k: nat)
    requires k < |parts| && Pieces(parts[..k]).Ok? && Piece(parts[k]).Err?
    ensures Pieces(parts) == Err(Piece(parts[k]).error)
  {
    assert parts[..k + 1][..k] == parts[..k];
    ErrorStays(parts, k + 1);
  }

  lemma {:induction false} ErrorStays(parts: seq<string>, k: nat)
    requires k <= |parts| && Pieces(parts[..k]).Err?
    ensures Pieces(parts) == Pieces(parts[..k])
    decreases |parts|
  {
    hide Piece;
    if k < |parts| {
      assert parts[..|parts| - 1][..k] == parts[..k];
      ErrorStays(parts[..|parts| - 1], k);
    } else {
      assert parts[..k] == parts;
    }
  }

  method PrintPorts(ports: seq<int>) returns (s: string)
    ensures s == PortList(ports)
    ensures var range := |ports| > 1 && forall i :: 1 <= i < |ports| ==> ports[i] == ports[i - 1] + 1;
            s == if range then Itoa(ports[0]) + ":" + Itoa(ports[|ports| - 1]) else Join(Numerals(ports))
  {
    if |ports| == 1 { return Itoa(ports[0]); }
    if |ports| > 1 {
      var contiguous := true;
      for i := 1 to |ports|
        invariant contiguous && forall j :: 1 <= j < i ==> ports[j] == ports[j - 1] + 1
      {
        if ports[i] != ports[i - 1] + 1 {
          contiguous := false;
          break;
        }
      }
      if contiguous { return Itoa(ports[0]) + ":" + Itoa(ports[|ports| - 1]); }
    }
    var parts := new string[|ports|](_ => "");
    for i := 0 to |ports|
      invariant forall j :: 0 <= j < i ==> parts[j] == Itoa(ports[j])
    {
      parts[i] := Itoa(ports[i]);
    }
    assert parts[..] == Numerals(ports);
    s := Join(parts[..]);
  }

  // ---------------------------------------------------------------- round trip

  /** The lists the parser produces. */
  ghost predicate Canonical(ports: seq<int>) {
    ports != [] && Distinct(ports) && forall n :: n in ports ==> InRange(n)
  }

  lemma ParsedIsCanonical(spec: string)
    requires Parse(spec).Ok?
    ensures Canonical(Parse(spec).value)
  {
    DedupIsDistinct(Pieces(Split(TrimSpace(spec), ',')).value);
  }

  /** No white space at either end. */
  predicate Tight(s: string) {
    s != "" && !IsSpace(s[0]) && !IsSpace(s[|s| - 1])
  }

  lemma TightIsTrimmed(s: string)
    requires Tight(s)
    ensures TrimSpace(s) == s
  {
  }

  /** Digits, so neither a separator nor white space. */
  predicate Numeral(s: string) {
    s != "" && Digits(s)
  }

  lemma NumeralIsTight(s: string)
    requires Numeral(s)
    ensures Tight(s) && ',' !in s && ':' !in s
  {
    assert IsDigit(s[0]) && IsDigit(s[|s| - 1]);
  }

  lemma {:induction false} SplitSingle(s: string, sep: char)
    requires sep !in s
    ensures Split(s, sep) == [s]
  {
    if s != "" {
      SplitSingle(s[1..], sep);
      assert [s[0]] + s[1..] == s;
    }
  }

  lemma {:induction false} SplitFirst(s: string, rest: string, sep: char)
    requires sep !in s
    ensures Split(s + [sep] + rest, sep) == [s] + Split(rest, sep)
  {
    var whole := s + [sep] + rest;
    if s == "" {
      assert whole[1..] == rest;
    } else {
      SplitFirst(s[1..], rest, sep);
      assert whole[1..] == s[1..] + [sep] + rest;
      assert [s[0]] + s[1..] == s;
      assert ([s[1..]] + Split(rest, sep))[1..] == Split(rest, sep);
    }
  }

  /** Splitting undoes joining. */
  lemma {:induction false} SplitJoin(parts: seq<string>)
    requires parts != [] && forall i :: 0 <= i < |parts| ==> ',' !in parts[i]
    ensures Split(Join(parts), ',') == parts
  {
    if |parts| == 1 {
      SplitSingle(parts[0], ',');
    } else {
      SplitJoin(parts[1..]);
      SplitFirst(parts[0], Join(parts[1..]), ',');
    }
  }

  lemma {:induction false} JoinIsTight(parts: seq<string>)
    requires parts != [] && forall i :: 0 <= i < |parts| ==> Tight(parts[i])
    ensures Tight(Join(parts))
  {
    hide IsSpace;
    if |parts| > 1 { JoinIsTight(parts[1..]); }
  }

  lemma NumeralPiece(n: int)
    requires InRange(n)
    ensures Numeral(Itoa(n)) && Piece(Itoa(n)) == Ok([n])
  {
    ItoaIsDecimal(n);
    NumeralIsTight(Itoa(n));
    TightIsTrimmed(Itoa(n));
    AtoiItoa(n);
  }

  lemma {:induction false} NumeralPieces(ports: seq<int>)
    requires forall n :: n in ports ==> InRange(n)
    ensures Pieces(Numerals(ports)) == Ok(ports)
    decreases |ports|
  {
    hide Piece;
    if ports != [] {
      var init := ports[..|ports| - 1];
      NumeralPieces(init);
      assert Numerals(ports)[..|ports| - 1] == Numerals(init);
      NumeralPiece(ports[|ports| - 1]);
      assert ports == init + [ports[|ports| - 1]];
    }
  }

  lemma {:induction false} DedupDistinct(xs: seq<int>)
    requires Distinct(xs)
    ensures Dedup(xs) == xs
  {
    if xs != [] {
      var init := xs[..|xs| - 1];
      DedupDistinct(init);
      assert xs == init + [xs[|xs| - 1]];
    }
  }

  /** Both forms of the printer are read back as the list itself. */
  lemma PrintedPieces(ports: seq<int>)
    requires Canonical(ports)
    ensures Tight(PortList(ports)) && Pieces(Split(PortList(ports), ',')) == Ok(ports)
  {
    hide Piece, Pieces, IsSpace, Itoa, Digits;
    forall i | 0 <= i < |ports| ensures Numeral(Itoa(ports[i])) && Tight(Itoa(ports[i])) && ',' !in Itoa(ports[i]) {
      NumeralPiece(ports[i]);
      NumeralIsTight(Itoa(ports[i]));
    }
    if |ports| > 1 && Contiguous(ports) {
      RangeForm(ports);
    } else {
      SplitJoin(Numerals(ports));
      JoinIsTight(Numerals(ports));
      NumeralPieces(ports);
    }
  }

  lemma {:induction false} ContiguousIsRange(ports: seq<int>, i: nat)
    requires i < |ports| && Contiguous(ports)
    ensures ports[i] == ports[0] + i
  {
    if i > 0 { ContiguousIsRange(ports, i - 1); }
  }

  lemma CutAt(a: string, b: string, c: char)
    requires c !in a
    ensures IndexOf(a + [c] + b, c) == |a|
    ensures (a + [c] + b)[..|a|] == a && (a + [c] + b)[|a| + 1..] == b
  {
    var s := a + [c] + b;
    var i := IndexOf(s, c);
    assert s[|a|] == c;
    assert forall j :: 0 <= j < |a| ==> s[j] == a[j];
    assert forall j :: 0 <= j < i ==> s[j] == s[..i][j];
  }

  /** Two numerals with a colon between them name the ports in between. */
  lemma RangePiece(lo: int, hi: int)
    requires InRange(lo) && InRange(hi) && lo < hi
    ensures var s := Itoa(lo) + ":" + Itoa(hi);
            Tight(s) && ',' !in s && Piece(s) == Ok(Range(lo, hi + 1))
  {
    hide IsSpace, Itoa, Atoi, TrimSpace, Digits, IndexOf;
    var a, b := Itoa(lo), Itoa(hi);
    NumeralPiece(lo); NumeralPiece(hi);
    NumeralIsTight(a); NumeralIsTight(b);
    TightIsTrimmed(a); TightIsTrimmed(b);
    AtoiItoa(lo); AtoiItoa(hi);
    var s := a + ":" + b;
    assert s[0] == a[0] && s[|s| - 1] == b[|b| - 1];
    TightIsTrimmed(s);
    assert s[|a|] == ':';
    CutAt(a, b, ':');
  }

  lemma OnePiece(part: string)
    requires Piece(part).Ok?
    ensures Pieces([part]) == Piece(part)
  {
    hide Piece;
    assert [part][..0] == [];
    assert [] + Piece(part).value == Piece(part).value;
  }

  lemma RangeForm(ports: seq<int>)
    requires Canonical(ports) && |ports| > 1 && Contiguous(ports)
    ensures Tight(PortList(ports)) && Pieces(Split(PortList(ports), ',')) == Ok(ports)
  {
    hide Tight, Itoa, Split, Piece, Distinct;
    var lo, hi := ports[0], ports[|ports| - 1];
    ContiguousIsRange(ports, |ports| - 1);
    RangePiece(lo, hi);
    SplitSingle(PortList(ports), ',');
    forall i | 0 <= i < |ports| ensures ports[i] == lo + i { ContiguousIsRange(ports, i); }
    assert Range(lo, hi + 1) == ports;
    OnePiece(PortList(ports));
  }

  lemma RoundTrip(ports: seq<int>)
    requires Canonical(ports)
    ensures Parse(PortList(ports)) == Ok(ports)
  {
    PrintedPieces(ports);
    TightIsTrimmed(PortList(ports));
    DedupDistinct(ports);
  }

  /** Parsing what was printed gives the list back exactly for the non-empty lists
      of distinct ports from 1 to 65535. */
  lemma {:induction false} RoundTripIff(ports: seq<int>)
    ensures Parse(PortList(ports)) == Ok(ports) <==> Canonical(ports)
  {
    if Canonical(ports) { RoundTrip(ports); }
    if Parse(PortList(ports)) == Ok(ports) { ParsedIsCanonical(PortList(ports)); }
  }

  /** Printing an accepted specification normalises it without changing its meaning. */
  lemma PrintingNormalises(spec: string)
    requires Parse(spec).Ok?
    ensures Parse(PortList(Parse(spec).value)) == Parse(spec)
  {
    ParsedIsCanonical(spec);
    RoundTrip(Parse(spec).value);
  }

  lemma PortListInjective(ports: seq<int>, other: seq<int>)
    requires Canonical(ports) && Canonical(other) && PortList(ports) == PortList(other)
    ensures ports == other
  {
    RoundTrip(ports);
    RoundTrip(other);
  }

  // ---------------------------------------------------------------- white space

  predicate Blank(s: string) {
    forall i :: 0 <= i < |s| ==> IsSpace(s[i])
  }

  lemma {:induction false} TrimLeftIs(s: string) returns (w: string)
    ensures s == w + TrimLeft(s) && Blank(w) && (TrimLeft(s) == "" || !IsSpace(TrimLeft(s)[0]))
  {
    hide IsSpace;
    w := "";
    if s != "" && IsSpace(s[0]) {
      var v := TrimLeftIs(s[1..]);
      w := [s[0]] + v;
    }
  }

  lemma {:induction false} TrimRightIs(s: string) returns (w: string)
    ensures s == TrimRight(s) + w && Blank(w) && (TrimRight(s) == "" || !IsSpace(TrimRight(s)[|TrimRight(s)| - 1]))
  {
    hide IsSpace;
    w := "";
    if s != "" && IsSpace(s[|s| - 1]) {
      var v := TrimRightIs(s[..|s| - 1]);
      w := v + [s[|s| - 1]];
    }
  }

  /** Trimming takes white space from both ends and leaves none there ... */
  lemma TrimIs(s: string) returns (l: string, r: string)
    ensures s == l + TrimSpace(s) + r && Blank(l) && Blank(r)
    ensures TrimSpace(s) == "" || Tight(TrimSpace(s))
  {
    hide IsSpace, TrimLeft, TrimRight;
    l := TrimLeftIs(s);
    r := TrimRightIs(TrimLeft(s));
  }

  lemma {:induction false} TrimLeftTakes(w: string, t: string)
    requires Blank(w) && (t == "" || !IsSpace(t[0]))
    ensures TrimLeft(w + t) == t
  {
    hide IsSpace;
    if w == "" {
      assert w + t == t;
    } else {
      TrimLeftTakes(w[1..], t);
      assert (w + t)[1..] == w[1..] + t;
    }
  }

  lemma {:induction false} TrimRightTakes(t: string, w: string)
    requires Blank(w) && (t == "" || !IsSpace(t[|t| - 1]))
    ensures TrimRight(t + w) == t
  {
    hide IsSpace;
    if w == "" {
      assert t + w == t;
    } else {
      TrimRightTakes(t, w[..|w| - 1]);
      assert (t + w)[..|t + w| - 1] == t + w[..|w| - 1];
    }
  }

  /** ... and is determined by that. */
  lemma TrimUnique(l: string, t: string, r: string)
    requires Blank(l) && Blank(r) && (t == "" || Tight(t))
    ensures TrimSpace(l + t + r) == t
  {
    hide IsSpace, TrimLeft, TrimRight;
    if t == "" {
      TrimLeftTakes(l + r, "");
      assert l + t + r == l + r + "" && "" + "" == "";
      TrimRightTakes("", "");
    } else {
      TrimLeftTakes(l, t + r);
      assert l + t + r == l + (t + r);
      TrimRightTakes(t, r);
    }
  }

  lemma TrimPadded(l: string, s: string, r: string)
    requires Blank(l) && Blank(r)
    ensures TrimSpace(l + s + r) == TrimSpace(s)
  {
    var a, b := TrimIs(s);
    var t := TrimSpace(s);
    TrimUnique(l + a, t, b + r);
    assert l + s + r == (l + a) + t + (b + r);
  }

  /** What a part with a colon says depends on the two ends without the white space
      around them. */
  lemma RangePieceIs(x: string, y: string)
    requires ':' !in x
    ensures var lo, hi := Atoi(TrimSpace(x)), Atoi(TrimSpace(y));
            Piece(x + ":" + y) ==
            if lo.None? then Err(BadLow)
            else if hi.None? then Err(BadHigh)
            else if !(1 <= lo.value <= 65535 && 1 <= hi.value <= 65535) then Err(OutOfRange)
            else if lo.value >= hi.value then Err(LowNotBelowHigh)
            else Ok(Range(lo.value, hi.value + 1))
  {
    hide Atoi, TrimSpace, IsSpace, IndexOf, TrimLeft, TrimRight;
    var a := TrimLeftIs(x);
    var d := TrimRightIs(y);
    var u, v := TrimLeft(x), TrimRight(y);
    var p := u + ":" + v;
    ColonIsTight(u, v);
    TrimUnique(a, p, d);
    assert x + ":" + y == a + p + d;
    assert ':' !in u by { assert forall c :: c in u ==> c in x; }
    CutAt(u, v, ':');
    assert p[|u|] == ':';
    TrimPadded(a, u, "");
    TrimPadded("", v, d);
    assert a + u + "" == x && "" + v + d == y;
  }

  lemma ColonIsTight(u: string, v: string)
    requires u == "" || !IsSpace(u[0])
    requires v == "" || !IsSpace(v[|v| - 1])
    ensures Tight(u + ":" + v)
  {
    hide IsSpace;
    assert !IsSpace(':') by { ColonIsNoSpace(); }
  }

  lemma ColonIsNoSpace()
    ensures !IsSpace(':') && !IsSpace(',')
  {
  }

  lemma BlankHasNoSeparator(w: string)
    requires Blank(w)
    ensures ':' !in w && ',' !in w
  {
    ColonIsNoSpace();
    hide IsSpace;
  }

  /** `q` is `p` with white space around it. */
  ghost predicate Padded(p: string, q: string) {
    exists l, r :: Blank(l) && Blank(r) && q == l + p + r
  }

  ghost predicate RangeOf(p: string, x: string, y: string) {
    ':' !in x && p == x + ":" + y
  }

  /** `q` is `p` with white space around it or around the ends of its range. */
  ghost predicate Respaced(p: string, q: string) {
    || Padded(p, q)
    || exists x, y, u, v :: RangeOf(p, x, y) && RangeOf(q, u, v) && Padded(x, u) && Padded(y, v)
  }

  lemma PaddedTrim(p: string, q: string)
    requires Padded(p, q)
    ensures TrimSpace(p) == TrimSpace(q)
  {
    var l, r :| Blank(l) && Blank(r) && q == l + p + r;
    TrimPadded(l, p, r);
  }

  /** White space around a part, or around the ends of a range, changes nothing. */
  lemma RespacedPiece(p: string, q: string)
    requires Respaced(p, q)
    ensures Piece(p) == Piece(q)
  {
    hide TrimSpace, Padded, Atoi, IndexOf, Range;
    if Padded(p, q) {
      PaddedTrim(p, q);
    } else {
      var x, y, u, v :| RangeOf(p, x, y) && RangeOf(q, u, v) && Padded(x, u) && Padded(y, v);
      PaddedTrim(x, u);
      PaddedTrim(y, v);
      RangePieceIs(x, y);
      RangePieceIs(u, v);
    }
  }

  lemma {:induction false} SamePieces(ps: seq<string>, qs: seq<string>)
    requires |ps| == |qs| && forall i :: 0 <= i < |ps| ==> Piece(ps[i]) == Piece(qs[i])
    ensures Pieces(ps) == Pieces(qs)
  {
    hide Piece;
    if ps != [] { SamePieces(ps[..|ps| - 1], qs[..|qs| - 1]); }
  }

  /** A list with a separator is its first part and the rest. */
  lemma SplitAtFirst(s: string) returns (a: string, b: string)
    requires ',' in s
    ensures s == a + "," + b && ',' !in a && Split(s, ',') == [a] + Split(b, ',') && |b| < |s|
  {
    hide Split, IndexOf;
    var i := IndexOf(s, ',');
    a, b := s[..i], s[i + 1..];
    SplitFirst(a, b, ',');
  }

  lemma SplitLead(w: string, s: string)
    requires ',' !in w
    ensures var ps, qs := Split(s, ','), Split(w + s, ',');
            |qs| == |ps| && qs[0] == w + ps[0] && forall i :: 1 <= i < |ps| ==> qs[i] == ps[i]
  {
    hide Split;
    if ',' in s {
      var a, b := SplitAtFirst(s);
      SplitFirst(w + a, b, ',');
      assert w + s == w + a + "," + b;
    } else {
      SplitSingle(s, ',');
      SplitSingle(w + s, ',');
    }
  }

  lemma {:induction false} SplitTail(s: string, w: string)
    requires ',' !in w
    ensures var ps, qs := Split(s, ','), Split(s + w, ',');
            |qs| == |ps| && qs[|ps| - 1] == ps[|ps| - 1] + w && forall i :: 0 <= i < |ps| - 1 ==> qs[i] == ps[i]
    decreases |s|
  {
    hide Split;
    if ',' in s {
      var a, b := SplitAtFirst(s);
      SplitFirst(a, b + w, ',');
      assert s + w == a + "," + (b + w);
      SplitTail(b, w);
    } else {
      SplitSingle(s, ',');
      SplitSingle(s + w, ',');
    }
  }

  lemma PaddedPiece(l: string, part: string, r: string)
    requires Blank(l) && Blank(r)
    ensures Piece(l + part + r) == Piece(part)
  {
    TrimPadded(l, part, r);
    hide TrimSpace, Atoi, IsSpace;
  }

  lemma OtherPiece(ps: seq<string>, qs: seq<string>, k: nat)
    requires |ps| == |qs| && k < |ps| && Piece(ps[k]) == Piece(qs[k])
    requires forall i :: 0 <= i < |ps| && i != k ==> ps[i] == qs[i]
    ensures Pieces(ps) == Pieces(qs)
  {
    hide Piece, Pieces;
    SamePieces(ps, qs);
  }

  /** White space at the ends of a list of parts reaches its first and last part only. */
  lemma LeadPieces(w: string, s: string)
    requires Blank(w)
    ensures Pieces(Split(w + s, ',')) == Pieces(Split(s, ','))
  {
    BlankHasNoSeparator(w);
    SplitLead(w, s);
    var ps, qs := Split(s, ','), Split(w + s, ',');
    PaddedPiece(w, ps[0], "");
    hide Piece, Pieces, Blank, Split;
    assert w + ps[0] + "" == w + ps[0];
    OtherPiece(ps, qs, 0);
  }

  lemma TailPieces(s: string, w: string)
    requires Blank(w)
    ensures Pieces(Split(s + w, ',')) == Pieces(Split(s, ','))
  {
    hide Piece, Pieces, Split;
    BlankHasNoSeparator(w);
    SplitTail(s, w);
    var ps, qs := Split(s, ','), Split(s + w, ',');
    PaddedPiece("", ps[|ps| - 1], w);
    hide Blank;
    assert "" + ps[|ps| - 1] + w == ps[|ps| - 1] + w;
    OtherPiece(ps, qs, |ps| - 1);
  }

  /** Trimming the whole specification first makes no difference. */
  lemma TrimmedPieces(s: string)
    ensures Pieces(Split(TrimSpace(s), ',')) == Pieces(Split(s, ','))
  {
    hide Pieces, Split, TrimSpace;
    var l, r := TrimIs(s);
    LeadPieces(l, TrimSpace(s));
    TailPieces(l + TrimSpace(s), r);
  }

  lemma NamesNoneIff(part: string)
    ensures Piece(part) == Ok([]) <==> TrimSpace(part) == ""
  {
    hide TrimSpace, Atoi, IndexOf;
  }

  lemma EmptyIff(parts: seq<string>)
    requires parts != []
    ensures TrimSpace(Join(parts)) == "" <==> |parts| == 1 && Pieces(parts) == Ok([])
  {
    hide Piece, TrimSpace, Blank;
    if |parts| == 1 {
      NamesNoneIff(parts[0]);
      assert parts == [parts[0]] && parts[..0] == [];
      if Piece(parts[0]).Ok? { OnePiece(parts[0]); }
    } else {
      var l, r := TrimIs(Join(parts));
      BlankHasNoSeparator(l);
      BlankHasNoSeparator(r);
      assert Join(parts)[|parts[0]|] == ',';
      assert "" + r == r && l + "" == l;
    }
  }

  /** What a list of parts without commas in them says. */
  lemma ParseIs(parts: seq<string>)
    requires parts != [] && forall i :: 0 <= i < |parts| ==> ',' !in parts[i]
    ensures var all := Pieces(parts);
            Parse(Join(parts)) ==
            if all.Err? then all
            else if all.value != [] then Ok(Dedup(all.value))
            else if |parts| == 1 then Err(EmptySpec)
            else Err(NoPorts)
  {
    var s := Join(parts);
    SplitJoin(parts);
    TrimmedPieces(s);
    hide Pieces, Dedup, Split;
    EmptyIff(parts);
    if Pieces(parts).Ok? { DedupIsDistinct(Pieces(parts).value); }
  }

  /** White space around the parts of a specification, around the ends of its ranges and
      around the whole changes no result, accepted or rejected. */
  lemma SpaceIsIgnored(parts: seq<string>, respaced: seq<string>)
    requires parts != [] && |respaced| == |parts|
    requires forall i :: 0 <= i < |parts| ==> ',' !in parts[i] && ',' !in respaced[i] && Respaced(parts[i], respaced[i])
    ensures Parse(Join(respaced)) == Parse(Join(parts))
  {
    hide Parse, Pieces, Piece, Respaced, Join;
    forall i | 0 <= i < |parts| ensures Piece(parts[i]) == Piece(respaced[i]) {
      RespacedPiece(parts[i], respaced[i]);
    }
    SamePieces(parts, respaced);
    ParseIs(parts);
    ParseIs(respaced);
  }
}
