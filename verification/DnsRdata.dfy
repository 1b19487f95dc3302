/** Zone-file rdata of DNS records, pkg/backup/dns_rdata.go.

    strconv.Quote and strconv.Unquote are function parameters with two laws; the other library
    functions used are written out below. */
module DnsRdata {
  import opened Common
  import opened Text

  // -------------------------------------------------------------------------------------
  // strings

  predicate EndsWithDot(s: string) {
    s != "" && s[|s| - 1] == '.'
  }

  /** strings.TrimSuffix(s, ".") */
  function TrimDot(s: string): string {
    if EndsWithDot(s) then s[..|s| - 1] else s
  }

  function WordLength(s: string): (n: nat)
    ensures n <= |s| && NoSpace(s[..n])
    ensures n < |s| ==> IsSpace(s[n])
  {
    if s == "" || IsSpace(s[0]) then 0
    else
      var n := WordLength(s[1..]);
      assert forall i | 1 <= i < 1 + n :: s[i] == s[1..][..n][i - 1];
      1 + n
  }

  /** strings.Fields */
  function Fields(s: string): seq<string>
    decreases |s|
  {
    if s == "" then []
    else if IsSpace(s[0]) then Fields(s[1..])
    else
      var n := WordLength(s);
      [s[..n]] + Fields(s[n..])
  }

  // -------------------------------------------------------------------------------------
  // strconv

  predicate IsDigit(c: char) {
    '0' <= c <= '9'
  }

  function Digits(n: nat): string {
    if n < 10 then [('0' as int + n) as char] else Digits(n / 10) + [('0' as int + n % 10) as char]
  }

  /** "%d" */
  function Itoa(n: int): string {
    if n < 0 then "-" + Digits(-n) else Digits(n)
  }

  predicate AllDigits(s: string) {
    forall i | 0 <= i < |s| :: IsDigit(s[i])
  }

  function Value(s: string): nat
    requires AllDigits(s)
  {
    if s == "" then 0 else 10 * Value(s[..|s| - 1]) + (s[|s| - 1] as int - '0' as int)
  }

  /** strconv.Atoi: an optional sign, at least one digit, and a value that fits int64. */
  function Atoi(s: string): Option<int> {
    var digits := if s != "" && (s[0] == '-' || s[0] == '+') then s[1..] else s;
    if digits == "" || !AllDigits(digits) then None
    else
      var magnitude: int := Value(digits);
      var n := if s[0] == '-' then -magnitude else magnitude;
      if IsInt64(n) then Some(n) else None
  }

  // -------------------------------------------------------------------------------------
  // Records

  /** The record types by name; Other is every name the two functions do not treat specially. */
  datatype RecordType = A | AAAA | CNAME | NS | PTR | MX | SRV | TXT | Other(typeName: string)

  datatype DNSRecord = DNSRecord(
    name: string, recordType: RecordType, value: string, ttl: int, priority: int, weight: int, port: int)

  /** A name with its trailing dot. */
  function FQDN(name: string): string {
    if EndsWithDot(name) then name else name + "."
  }

  function Format(r: DNSRecord, quote: string -> string): Option<string> {
    match r.recordType
    case A | AAAA => Some(r.value)
    case CNAME | NS | PTR => Some(FQDN(r.value))
    case MX => Some(Itoa(r.priority) + " " + FQDN(r.value))
    case SRV => Some(Itoa(r.priority) + " " + (Itoa(r.weight) + " " + (Itoa(r.port) + " " + FQDN(r.value))))
    case TXT => Some(if r.value != "" && r.value[0] == '\"' then r.value else quote(r.value))
    case _ => None
  }

  function Parse(
    name: string, recordType: RecordType, rdata: string, ttl: int, unquote: string -> Option<string>): DNSRecord
  {
    var r := DNSRecord(TrimDot(name), recordType, rdata, ttl, 0, 0, 0);
    match recordType
    case CNAME | NS | PTR => r.(value := TrimDot(rdata))
    case MX =>
      var fields := Fields(rdata);
      if |fields| == 2 && Atoi(fields[0]).Some?
      then r.(priority := Atoi(fields[0]).value, value := TrimDot(fields[1]))
      else r
    case SRV =>
      var fields := Fields(rdata);
      if |fields| == 4 && Atoi(fields[0]).Some? && Atoi(fields[1]).Some? && Atoi(fields[2]).Some?
      then r.(priority := Atoi(fields[0]).value, weight := Atoi(fields[1]).value,
              port := Atoi(fields[2]).value, value := TrimDot(fields[3]))
      else r
    case TXT => r.(value := if unquote(rdata).Some? then unquote(rdata).value else TrimQuotes(rdata))
    case _ => r
  }

  // -------------------------------------------------------------------------------------
  // Numbers survive

  lemma {:induction false} DigitsRead(n: nat)
    ensures Digits(n) != "" && AllDigits(Digits(n)) && Value(Digits(n)) == n
  {
    if n >= 10 {
      DigitsRead(n / 10);
      assert Digits(n)[..|Digits(n)| - 1] == Digits(n / 10);
    } else {
      assert Digits(n)[..0] == "";
    }
  }

  lemma DigitsAreWords(s: string)
    requires AllDigits(s)
    ensures NoSpace(s)
  {
    forall i | 0 <= i < |s|
      ensures !IsSpace(s[i])
    {
      assert IsDigit(s[i]);
    }
  }

  /** Every 64-bit integer, negative ones included, reads back; its digits are one word. */
  lemma AtoiOfItoa(n: int)
    requires IsInt64(n)
    ensures Atoi(Itoa(n)) == Some(n)
    ensures Itoa(n) != "" && NoSpace(Itoa(n))
  {
    hide Digits, Value;
    if n < 0 {
      DigitsRead(-n);
      assert Itoa(n)[1..] == Digits(-n);
      DigitsAreWords(Digits(-n));
    } else {
      DigitsRead(n);
      DigitsAreWords(Digits(n));
    }
  }

  // -------------------------------------------------------------------------------------
  // Words survive

  lemma {:induction false} WordLengthIs(w: string, rest: string)
    requires NoSpace(w) && (rest == "" || IsSpace(rest[0]))
    ensures WordLength(w + rest) == |w|
  {
    if w != "" {
      assert (w + rest)[0] == w[0] && (w + rest)[1..] == w[1..] + rest;
      WordLengthIs(w[1..], rest);
    } else {
      assert w + rest == rest;
    }
  }

  lemma FieldsOfWord(w: string)
    requires NoSpace(w) && w != ""
    ensures Fields(w) == [w]
  {
    WordLengthIs(w, "");
    assert w + "" == w;
    assert w[|w|..] == "" && w[..|w|] == w;
  }

  /** A word, a space and a rest split into the word and the fields of the rest. */
  lemma FieldsOfPair(w: string, rest: string)
    requires NoSpace(w) && w != ""
    ensures Fields(w + " " + rest) == [w] + Fields(rest)
  {
    var s := w + " " + rest;
    assert s == w + (" " + rest);
    WordLengthIs(w, " " + rest);
    assert s[..|w|] == w && s[|w|..] == " " + rest;
    assert (" " + rest)[1..] == rest;
  }

  lemma {:induction false} FieldsAreWords(s: string)
    ensures forall f <- Fields(s) :: f != "" && NoSpace(f)
    decreases |s|
  {
    if s != "" {
      if IsSpace(s[0]) {
        FieldsAreWords(s[1..]);
      } else {
        FieldsAreWords(s[WordLength(s)..]);
      }
    }
  }

  /** The one word of a host name comes back without its dot exactly when the name has no space and no
      trailing dot. */
  lemma HostField(v: string)
    ensures NoSpace(v) && !EndsWithDot(v) ==> Fields(FQDN(v)) == [v + "."] && TrimDot(v + ".") == v
    ensures !(NoSpace(v) && !EndsWithDot(v)) && |Fields(FQDN(v))| == 1 ==> TrimDot(Fields(FQDN(v))[0]) != v
  {
    if NoSpace(v) && !EndsWithDot(v) {
      FieldsOfWord(v + ".");
      assert (v + ".")[..|v|] == v;
    } else if NoSpace(v) {
      FieldsOfWord(v);
    } else if |Fields(FQDN(v))| == 1 {
      FieldsAreWords(FQDN(v));
      assert Fields(FQDN(v))[0] in Fields(FQDN(v));
      assert NoSpace(TrimDot(Fields(FQDN(v))[0]));
    }
  }

  // -------------------------------------------------------------------------------------
  // Round trip

  ghost predicate QuotingLaws(quote: string -> string, unquote: string -> Option<string>) {
    && (forall s :: unquote(quote(s)) == Some(s))
    && (forall s :: unquote(s).Some? ==> |unquote(s).value| < |s|)
  }

  predicate IntFields(r: DNSRecord) {
    IsInt64(r.priority) && IsInt64(r.weight) && IsInt64(r.port)
  }

  /** What a record must satisfy to survive, checked before formatting it. */
  predicate Restorable(r: DNSRecord) {
    && !EndsWithDot(r.name)
    && (r.recordType !in {MX, SRV} ==> r.priority == 0)
    && (r.recordType != SRV ==> r.weight == 0 && r.port == 0)
    && (r.recordType in {CNAME, NS, PTR, MX, SRV} ==> !EndsWithDot(r.value))
    && (r.recordType in {MX, SRV} ==> NoSpace(r.value))
    && (r.recordType == TXT && r.value != "" ==> r.value[0] != '\"')
  }

  lemma DotRoundTrip(s: string)
    ensures TrimDot(FQDN(s)) == s <==> !EndsWithDot(s)
  {
    if !EndsWithDot(s) {
      assert (s + ".")[..|s|] == s;
    }
  }

  lemma MXRoundTrip(r: DNSRecord, quote: string -> string, unquote: string -> Option<string>)
    requires r.recordType == MX && IntFields(r)
    ensures var p := Parse(FQDN(r.name), MX, Format(r, quote).value, r.ttl, unquote);
      p.value == r.value && p.priority == r.priority <==> NoSpace(r.value) && !EndsWithDot(r.value)
  {
    hide Itoa, Atoi, Fields, IsSpace;
    var rdata := Format(r, quote).value;
    AtoiOfItoa(r.priority);
    FieldsOfPair(Itoa(r.priority), FQDN(r.value));
    HostField(r.value);
    assert |rdata| > |r.value|;
  }

  lemma SRVRoundTrip(r: DNSRecord, quote: string -> string, unquote: string -> Option<string>)
    requires r.recordType == SRV && IntFields(r)
    ensures var p := Parse(FQDN(r.name), SRV, Format(r, quote).value, r.ttl, unquote);
      p.value == r.value && p.priority == r.priority && p.weight == r.weight && p.port == r.port
      <==> NoSpace(r.value) && !EndsWithDot(r.value)
  {
    hide Itoa, Atoi, Fields, IsSpace;
    var rdata := Format(r, quote).value;
    var host := FQDN(r.value);
    AtoiOfItoa(r.priority);
    AtoiOfItoa(r.weight);
    AtoiOfItoa(r.port);
    FieldsOfPair(Itoa(r.port), host);
    FieldsOfPair(Itoa(r.weight), Itoa(r.port) + " " + host);
    FieldsOfPair(Itoa(r.priority), Itoa(r.weight) + " " + (Itoa(r.port) + " " + host));
    HostField(r.value);
    assert |rdata| > |r.value|;
  }

  /** The words of an SRV or MX record in zone-file order: priority, weight, port and target, or preference
      and exchange; each number in decimal, the name with its dot. */
  lemma FormatWords(r: DNSRecord, quote: string -> string)
    requires r.recordType in {MX, SRV} && IntFields(r) && NoSpace(r.value) && !EndsWithDot(r.value)
    ensures var words := Fields(Format(r, quote).value);
      if r.recordType == MX then |words| == 2 && Atoi(words[0]) == Some(r.priority) && words[1] == r.value + "."
      else
        && |words| == 4 && Atoi(words[0]) == Some(r.priority) && Atoi(words[1]) == Some(r.weight)
        && Atoi(words[2]) == Some(r.port) && words[3] == r.value + "."
  {
    hide Itoa, Atoi, Fields, IsSpace;
    var host := FQDN(r.value);
    AtoiOfItoa(r.priority);
    AtoiOfItoa(r.weight);
    AtoiOfItoa(r.port);
    FieldsOfPair(Itoa(r.port), host);
    FieldsOfPair(Itoa(r.weight), Itoa(r.port) + " " + host);
    FieldsOfPair(Itoa(r.priority), if r.recordType == MX then host
                                   else Itoa(r.weight) + " " + (Itoa(r.port) + " " + host));
    HostField(r.value);
  }

  /** Two records as they stand in a zone file. */
  lemma ZoneFileLines(quote: string -> string)
    ensures Format(DNSRecord("_sip._udp", SRV, "sip", 60, 1, 20, 5060), quote) == Some("1 20 5060 sip.")
    ensures Format(DNSRecord("@", MX, "mail.", 60, -10, 0, 0), quote) == Some("-10 mail.")
  {
    FewDigits();
    hide Digits;
    assert FQDN("sip") == "sip." && FQDN("mail.") == "mail.";
    var srv := DNSRecord("_sip._udp", SRV, "sip", 60, 1, 20, 5060);
    assert Format(srv, quote) == Some("1" + " " + ("20" + " " + ("5060" + " " + "sip.")));
    assert "1" + " " + ("20" + " " + ("5060" + " " + "sip.")) == "1 20 5060 sip.";
    var mx := DNSRecord("@", MX, "mail.", 60, -10, 0, 0);
    assert Itoa(-10) == "-10";
    assert Format(mx, quote) == Some("-10" + " " + "mail.");
    assert "-10" + " " + "mail." == "-10 mail.";
  }

  lemma FewDigits()
    ensures Digits(1) == "1" && Digits(10) == "10" && Digits(20) == "20" && Digits(5060) == "5060"
  {
    assert Digits(5060) == Digits(506) + "0" && Digits(506) == Digits(50) + "6" && Digits(50) == "50";
  }

  /** For every supported type, formatting a record and parsing it back gives the same record exactly
      when the record is restorable. */
  lemma RoundTripIff(r: DNSRecord, quote: string -> string, unquote: string -> Option<string>)
    requires QuotingLaws(quote, unquote) && IntFields(r) && Format(r, quote).Some?
    ensures Parse(FQDN(r.name), r.recordType, Format(r, quote).value, r.ttl, unquote) == r <==> Restorable(r)
  {
    hide Itoa, Atoi, Fields, IsSpace, TrimQuotes, NoSpace, FQDN, TrimDot, EndsWithDot;
    DotRoundTrip(r.name);
    DotRoundTrip(r.value);
    match r.recordType {
      case MX => MXRoundTrip(r, quote, unquote);
      case SRV => SRVRoundTrip(r, quote, unquote);
      case _ =>
    }
  }

  /** Two records that do not survive: a target that is already fully qualified, and a mail host with a
      space in it. */
  lemma LostRecords(quote: string -> string, unquote: string -> Option<string>)
    requires QuotingLaws(quote, unquote)
    ensures var r := DNSRecord("www", CNAME, "host.", 60, 0, 0, 0);
      Parse(FQDN(r.name), CNAME, Format(r, quote).value, 60, unquote) == r.(value := "host")
    ensures var r := DNSRecord("www", MX, "mail host", 60, 10, 0, 0);
      Parse(FQDN(r.name), MX, Format(r, quote).value, 60, unquote) != r
  {
    hide Itoa, Atoi, Fields;
    var alias := DNSRecord("www", CNAME, "host.", 60, 0, 0, 0);
    DotRoundTrip(alias.name);
    assert TrimDot("host.") == "host";
    var mail := DNSRecord("www", MX, "mail host", 60, 10, 0, 0);
    assert IsSpace(mail.value[4]);
    RoundTripIff(mail, quote, unquote);
  }
}
