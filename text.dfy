/** Character and string helpers shared by the model: C's isspace, the
    whitespace trim, and the decimal rendering iostreams use for unsigned
    integers. */
module Text {
  import opened Results

  /** isspace in the "C" locale: space, tab, newline, vertical tab, form feed
      and carriage return. */
  predicate IsSpace(c: char) {
    c == ' ' || c == '\t' || c == '\n' || c == '\U{0B}' || c == '\U{0C}' || c == '\r'
  }

  predicate NoSpace(s: string) {
    forall i :: 0 <= i < |s| ==> !IsSpace(s[i])
  }

  /** s with every whitespace character erased (erase of remove_if(isspace)). */
  function RemoveSpaces(s: string): (r: string)
    ensures NoSpace(r)
    ensures |r| <= |s|
    ensures NoSpace(s) ==> r == s
  {
    if s == [] then []
    else (if IsSpace(s[0]) then [] else [s[0]]) + RemoveSpaces(s[1..])
  }

  /** Every character other than whitespace survives, as often as it
      occurred. */
  lemma {:induction false} RemoveSpacesKeeps(s: string, c: char)
    requires !IsSpace(c)
    ensures multiset(RemoveSpaces(s))[c] == multiset(s)[c]
  {
    if s != [] {
      assert s == [s[0]] + s[1..];
      RemoveSpacesKeeps(s[1..], c);
    }
  }

  /** Erasing whitespace keeps the order of what remains: it works piece by
      piece. */
  lemma {:induction false} RemoveSpacesAppend(a: string, b: string)
    ensures RemoveSpaces(a + b) == RemoveSpaces(a) + RemoveSpaces(b)
  {
    if a == [] {
      assert a + b == b;
    } else {
      var t := a[1..];
      assert (a + b)[1..] == t + b;
      RemoveSpacesAppend(t, b);
      AppendAssoc(if IsSpace(a[0]) then [] else [a[0]], RemoveSpaces(t), RemoveSpaces(b));
    }
  }

  lemma AppendAssoc(x: string, y: string, z: string)
    ensures x + (y + z) == (x + y) + z
  {
  }

  /** s without its leading whitespace. */
  function TrimLeft(s: string): (r: string)
    ensures |r| <= |s| && r == s[|s| - |r|..]
    ensures r == [] || !IsSpace(r[0])
    ensures forall i :: 0 <= i < |s| - |r| ==> IsSpace(s[i])
  {
    if s != [] && IsSpace(s[0]) then
      var r := TrimLeft(s[1..]);
      assert s[1..][|s| - 1 - |r|..] == s[|s| - |r|..];
      assert forall i :: 1 <= i < |s| - |r| ==> s[i] == s[1..][i - 1];
      r
    else s
  }

  /** s without its trailing whitespace. */
  function TrimRight(s: string): (r: string)
    ensures |r| <= |s| && r == s[..|r|]
    ensures r == [] || !IsSpace(r[|r| - 1])
    ensures forall i :: |r| <= i < |s| ==> IsSpace(s[i])
  {
    if s != [] && IsSpace(s[|s| - 1]) then TrimRight(s[..|s| - 1]) else s
  }

  /** The number of whitespace characters s begins with. */
  function LeadingSpaces(s: string): (k: nat)
    ensures k <= |s|
    ensures forall i :: 0 <= i < k ==> IsSpace(s[i])
    ensures k == |s| || !IsSpace(s[k])
  {
    |s| - |TrimLeft(s)|
  }

  /** boost::algorithm::trim: both ends stripped of whitespace. */
  function Trim(s: string): (r: string)
    ensures r == [] || (!IsSpace(r[0]) && !IsSpace(r[|r| - 1]))
    ensures |r| <= |s|
  {
    TrimRight(TrimLeft(s))
  }

  /** Trim keeps the middle as it is: it is the slice of s after the leading
      whitespace, and only whitespace follows it. */
  lemma TrimSlice(s: string)
    ensures LeadingSpaces(s) + |Trim(s)| <= |s|
    ensures Trim(s) == s[LeadingSpaces(s)..LeadingSpaces(s) + |Trim(s)|]
    ensures forall i :: LeadingSpaces(s) + |Trim(s)| <= i < |s| ==> IsSpace(s[i])
  {
    var l := TrimLeft(s);
    assert l == s[LeadingSpaces(s)..];
  }

  /** Trimming is idempotent, and a string with no surrounding whitespace is
      its own trim. */
  lemma {:induction false} TrimFixpoint(s: string)
    requires s == [] || (!IsSpace(s[0]) && !IsSpace(s[|s| - 1]))
    ensures Trim(s) == s
  {
    assert TrimLeft(s) == s;
    assert TrimRight(s) == s;
  }

  lemma TrimIdempotent(s: string)
    ensures Trim(Trim(s)) == Trim(s)
  {
    TrimFixpoint(Trim(s));
  }

  predicate IsDigit(c: char) {
    '0' <= c <= '9'
  }

  predicate AllDigits(s: string) {
    forall i :: 0 <= i < |s| ==> IsDigit(s[i])
  }

  function DigitChar(d: nat): (c: char)
    requires d < 10
    ensures IsDigit(c) && c as int - '0' as int == d
  {
    ('0' as int + d) as char
  }

  /** Decimal rendering of n, as operator<< writes a size_t. */
  function NatToString(n: nat): (r: string)
    ensures |r| >= 1 && AllDigits(r)
    ensures |r| > 1 ==> r[0] != '0'
    decreases n
  {
    if n < 10 then [DigitChar(n)] else NatToString(n / 10) + [DigitChar(n % 10)]
  }

  /** The value of a string of decimal digits. */
  function DigitsValue(s: string): nat
    requires AllDigits(s)
  {
    if s == [] then 0
    else DigitsValue(s[..|s| - 1]) * 10 + (s[|s| - 1] as int - '0' as int)
  }

  /** Reading back a rendered number gives the number. */
  lemma {:induction false} NatToStringRoundTrip(n: nat)
    ensures DigitsValue(NatToString(n)) == n
    decreases n
  {
    if n >= 10 {
      NatToStringRoundTrip(n / 10);
      var r := NatToString(n);
      assert r[..|r| - 1] == NatToString(n / 10);
    }
  }

  /** The CSV row "a,b" that the writers print for a pair of counts. */
  function Row(a: nat, b: nat): string {
    NatToString(a) + "," + NatToString(b)
  }

  /** A row splits back at its only comma into the two numbers it was made of. */
  lemma RowRoundTrip(a: nat, b: nat)
    ensures var r := Row(a, b); var k := |NatToString(a)|;
      k < |r| && r[k] == ',' && AllDigits(r[..k]) && AllDigits(r[k + 1..])
      && DigitsValue(r[..k]) == a && DigitsValue(r[k + 1..]) == b
  {
    var r := Row(a, b);
    var k := |NatToString(a)|;
    assert r[..k] == NatToString(a);
    assert r[k + 1..] == NatToString(b);
    NatToStringRoundTrip(a);
    NatToStringRoundTrip(b);
  }

  /** The CSV row "a,b,c" written for a triple of counts. */
  function Row3(a: nat, b: nat, c: nat): string {
    NatToString(a) + "," + NatToString(b) + "," + NatToString(c)
  }

  /** Index of the first comma in s, or |s| when there is none. */
  function FirstComma(s: string): (k: nat)
    ensures k <= |s|
    ensures k < |s| ==> s[k] == ','
    ensures forall j :: 0 <= j < k ==> s[j] != ','
  {
    if s == [] || s[0] == ',' then 0 else 1 + FirstComma(s[1..])
  }

  /** The comma-separated fields of a line. */
  function Fields(s: string): (fs: seq<string>)
    ensures |fs| >= 1
    decreases |s|
  {
    var k := FirstComma(s);
    if k == |s| then [s] else [s[..k]] + Fields(s[k + 1..])
  }

  /** The values of a list of fields, each a non-empty run of digits; None
      when some field is not a number. */
  function Values(fs: seq<string>): (r: Option<seq<nat>>)
    ensures r.Some? ==> |r.value| == |fs|
  {
    if fs == [] then Some([])
    else if fs[0] != [] && AllDigits(fs[0]) then
      match Values(fs[1..])
      case Some(vs) => Some([DigitsValue(fs[0])] + vs)
      case None => None
    else None
  }

  /** A CSV line of decimal numbers read back into its numbers, as a
      consumer of the written tables would read it. */
  function ReadRow(r: string): Option<seq<nat>> {
    Values(Fields(r))
  }

  /** A number has no comma: it is a single field. */
  lemma FieldsOfNumber(n: nat)
    ensures Fields(NatToString(n)) == [NatToString(n)]
  {
    var r := NatToString(n);
    forall j | 0 <= j < |r| ensures r[j] != ',' {
      assert IsDigit(r[j]);
    }
  }

  /** Digits contain no comma, so a number followed by a comma is a first
      field. */
  lemma {:induction false} FieldsAfterNumber(n: nat, rest: string)
    ensures Fields(NatToString(n) + "," + rest) == [NatToString(n)] + Fields(rest)
  {
    var r := NatToString(n) + "," + rest;
    var k := |NatToString(n)|;
    assert r[k] == ',';
    forall j | 0 <= j < k ensures r[j] != ',' {
      assert r[j] == NatToString(n)[j];
    }
    assert FirstComma(r) == k;
    assert r[..k] == NatToString(n);
    assert r[k + 1..] == rest;
  }

  /** Reading a rendered number gives back its value. */
  lemma ReadNumber(n: nat, rest: seq<nat>, fs: seq<string>)
    requires Values(fs) == Some(rest)
    ensures Values([NatToString(n)] + fs) == Some([n] + rest)
  {
    NatToStringRoundTrip(n);
    assert ([NatToString(n)] + fs)[1..] == fs;
  }

  /** The reader inverts the writers of one, two and three numbers. */
  lemma ReadSingle(a: nat)
    ensures ReadRow(NatToString(a)) == Some([a])
  {
    FieldsOfNumber(a);
    ReadNumber(a, [], []);
    assert [NatToString(a)] + [] == [NatToString(a)];
    assert [a] + [] == [a];
  }

  lemma ReadRowRoundTrip(a: nat, b: nat)
    ensures ReadRow(Row(a, b)) == Some([a, b])
  {
    FieldsAfterNumber(a, NatToString(b));
    ReadSingle(b);
    FieldsOfNumber(b);
    ReadNumber(a, [b], [NatToString(b)]);
    assert [NatToString(a)] + [NatToString(b)] == Fields(Row(a, b));
    assert [a] + [b] == [a, b];
  }

  /** A two-line CSV report: a header, then the row of a pair of counts. */
  function HeaderAndPair(header: string, pair: (nat, nat)): seq<string> {
    [header, Row(pair.0, pair.1)]
  }

  lemma HeaderAndPairReadsBack(header: string, pair: (nat, nat))
    ensures |HeaderAndPair(header, pair)| == 2 && HeaderAndPair(header, pair)[0] == header
    ensures ReadRow(HeaderAndPair(header, pair)[1]) == Some([pair.0, pair.1])
  {
    ReadRowRoundTrip(pair.0, pair.1);
  }

  lemma ReadRow3RoundTrip(a: nat, b: nat, c: nat)
    ensures ReadRow(Row3(a, b, c)) == Some([a, b, c])
  {
    assert [a] + [b, c] == [a, b, c];
    assert Row3(a, b, c) == NatToString(a) + "," + Row(b, c);
    FieldsAfterNumber(a, Row(b, c));
    ReadRowRoundTrip(b, c);
    ReadNumber(a, [b, c], Fields(Row(b, c)));
  }

  /** Distinct pairs give distinct rows. */
  lemma RowInjective(a: nat, b: nat, c: nat, d: nat)
    requires Row(a, b) == Row(c, d)
    ensures a == c && b == d
  {
    ReadRowRoundTrip(a, b);
    ReadRowRoundTrip(c, d);
  }
}
