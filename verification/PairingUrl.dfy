/** The pairing URL shown as a QR code: its generator, its parser, and the GUI's port reader. */
module PairingUrl {
  import opened Prelude
  import opened Text

  const SCHEME := "tapauth://pair?"
  const VERSION: nat := 1
  const U16_MAX: nat := 0xFFFF
  const U32_MAX: nat := 0xFFFF_FFFF

  datatype Ipv4 = Ipv4(a: byte, b: byte, c: byte, d: byte)

  /** Display and FromStr of an IPv6 address, whose text is a library matter. */
  datatype Ipv6Text<!T> = Ipv6Text(show: T -> string, parse: string -> Option<T>)

  /** They are inverse, and the text is free of the URL's two separators. */
  ghost predicate Faithful<T(!new)>(v6: Ipv6Text<T>) {
    forall ip :: v6.parse(v6.show(ip)) == Some(ip) && '&' !in v6.show(ip) && '=' !in v6.show(ip)
  }

  datatype Info<T> = Info(version: nat, publicKey: string, port: nat, ipv4: Option<Ipv4>, ipv6: Option<T>)

  datatype UrlError = InvalidScheme | InvalidQuery | InvalidVersion | InvalidPort | InvalidIpv4 | InvalidIpv6
      | MissingField

  /** `Ipv4Addr`'s Display. */
  function ShowIpv4(ip: Ipv4): string {
    Join([Decimal(ip.a as nat), Decimal(ip.b as nat), Decimal(ip.c as nat), Decimal(ip.d as nat)], '.')
  }

  /** One to three digits without a leading zero, at most 255. */
  function ParseOctet(s: string): Option<byte> {
    if 0 < |s| <= 3 && AllDigits(s) && (|s| > 1 ==> s[0] != '0') && Value(s) <= 255
    then Some(Value(s) as byte) else None
  }

  function ParseIpv4(s: string): Option<Ipv4> {
    var parts := Split(s, '.');
    if |parts| != 4 then None
    else
      var a, b, c, d := ParseOctet(parts[0]), ParseOctet(parts[1]), ParseOctet(parts[2]), ParseOctet(parts[3]);
      if a.Some? && b.Some? && c.Some? && d.Some? then Some(Ipv4(a.value, b.value, c.value, d.value)) else None
  }

  function Pair(key: string, value: string): string {
    key + ['='] + value
  }

  /** The `key=value` pairs of a generated URL, in order. */
  function Pairs<T>(v6: Ipv6Text<T>, publicKey: string, port: nat, ipv4: Option<Ipv4>, ipv6: Option<T>): seq<string> {
    [Pair("v", "1"), Pair("pk", publicKey), Pair("p", Decimal(port))]
    + (if ipv4.Some? then [Pair("ip4", ShowIpv4(ipv4.value))] else [])
    + (if ipv6.Some? then [Pair("ip6", v6.show(ipv6.value))] else [])
  }

  function Url<T>(v6: Ipv6Text<T>, publicKey: string, port: nat, ipv4: Option<Ipv4>, ipv6: Option<T>): string {
    SCHEME + Join(Pairs(v6, publicKey, port, ipv4, ipv6), '&')
  }

  datatype Fields<T> = Fields(version: Option<nat>, publicKey: Option<string>, port: Option<nat>, ipv4: Option<Ipv4>,
                              ipv6: Option<T>)

  /** One turn of the parser's loop. */
  function ParsePair<T>(v6: Ipv6Text<T>, f: Fields<T>, pair: string): Result<Fields<T>, UrlError> {
    var parts := Split(pair, '=');
    if |parts| < 2 then Err(InvalidQuery)
    else
      var key, value := parts[0], parts[1];
      if key == "v" then
        var v := ParseUnsigned(value, U32_MAX);
        if v.Some? then Ok(f.(version := v)) else Err(InvalidVersion)
      else if key == "pk" then Ok(f.(publicKey := Some(value)))
      else if key == "p" then
        var p := ParseUnsigned(value, U16_MAX);
        if p.Some? then Ok(f.(port := p)) else Err(InvalidPort)
      else if key == "ip4" then
        var ip := ParseIpv4(value);
        if ip.Some? then Ok(f.(ipv4 := ip)) else Err(InvalidIpv4)
      else if key == "ip6" then
        var ip := v6.parse(value);
        if ip.Some? then Ok(f.(ipv6 := ip)) else Err(InvalidIpv6)
      else Ok(f)
  }

  function ParsePairs<T>(v6: Ipv6Text<T>, pairs: seq<string>): Result<Fields<T>, UrlError> {
    if pairs == [] then Ok(Fields(None, None, None, None, None))
    else
      var before := ParsePairs(v6, Front(pairs));
      if before.Err? then before else ParsePair(v6, before.value, Last(pairs))
  }

  function Complete<T>(f: Fields<T>): Result<Info<T>, UrlError> {
    if f.version.None? || f.publicKey.None? || f.port.None? then Err(MissingField)
    else Ok(Info(f.version.value, f.publicKey.value, f.port.value, f.ipv4, f.ipv6))
  }

  function Parse<T>(v6: Ipv6Text<T>, url: string): Result<Info<T>, UrlError> {
    if !(SCHEME <= url) then Err(InvalidScheme)
    else
      var fields := ParsePairs(v6, Split(url[|SCHEME|..], '&'));
      if fields.Err? then Err(fields.error) else Complete(fields.value)
  }

  // ---- Round trip -----------------------------------------------------------

  predicate Plain(s: string) {
    '&' !in s && '=' !in s
  }

  lemma PairSplits(key: string, value: string)
    requires Plain(key) && Plain(value)
    ensures Split(Pair(key, value), '=') == [key, value]
    ensures '&' !in Pair(key, value)
  {
    SplitFirst(key, '=', value);
    SplitAbsent(value, '=');
  }

  lemma DecimalIsPlain(n: nat)
    ensures Plain(Decimal(n)) && '.' !in Decimal(n)
  {
  }

  lemma {:induction false} DecimalWidth(n: nat)
    requires n < 1000
    ensures |Decimal(n)| <= 3
  {
    if n >= 10 {
      assert |Decimal(n / 10)| <= 2;
    }
  }

  lemma OctetRoundTrip(b: byte)
    ensures ParseOctet(Decimal(b as nat)) == Some(b)
  {
    DecimalRoundTrip(b as nat);
    DecimalWidth(b as nat);
  }

  lemma Ipv4RoundTrip(ip: Ipv4)
    ensures ParseIpv4(ShowIpv4(ip)) == Some(ip)
    ensures Plain(ShowIpv4(ip))
  {
    var parts := [Decimal(ip.a as nat), Decimal(ip.b as nat), Decimal(ip.c as nat), Decimal(ip.d as nat)];
    assert Split(ShowIpv4(ip), '.') == parts by {
      SplitJoin(parts, '.');
    }
    JoinAbsent(parts, '.', '&');
    JoinAbsent(parts, '.', '=');
    OctetRoundTrip(ip.a);
    OctetRoundTrip(ip.b);
    OctetRoundTrip(ip.c);
    OctetRoundTrip(ip.d);
  }

  /** Only the text an address is shown as stands for it: no leading zeros, no other forms. */
  lemma Ipv4TextIsCanonical(s: string, ip: Ipv4)
    ensures ParseIpv4(s) == Some(ip) <==> s == ShowIpv4(ip)
  {
    Ipv4RoundTrip(ip);
    var parts := Split(s, '.');
    if ParseIpv4(s) == Some(ip) {
      assert parts == [parts[0], parts[1], parts[2], parts[3]];
      DecimalIsCanonical(parts[0]);
      DecimalIsCanonical(parts[1]);
      DecimalIsCanonical(parts[2]);
      DecimalIsCanonical(parts[3]);
      JoinSplit(s, '.');
    }
  }

  /** One more pair parsed after others. */
  lemma ParseSnoc<T>(v6: Ipv6Text<T>, pairs: seq<string>, f: Fields<T>, pair: string)
    requires ParsePairs(v6, pairs) == Ok(f)
    ensures ParsePairs(v6, pairs + [pair]) == ParsePair(v6, f, pair)
  {
    assert Front(pairs + [pair]) == pairs;
  }

  lemma ParseKeyPair<T>(v6: Ipv6Text<T>, f: Fields<T>, publicKey: string)
    requires Plain(publicKey)
    ensures ParsePair(v6, f, Pair("v", "1")) == Ok(f.(version := Some(VERSION)))
    ensures ParsePair(v6, f, Pair("pk", publicKey)) == Ok(f.(publicKey := Some(publicKey)))
  {
    PairSplits("v", "1");
    assert Decimal(1) == "1";
    UnsignedRoundTrip(1, U32_MAX);
    PairSplits("pk", publicKey);
  }

  lemma ParsePortPair<T>(v6: Ipv6Text<T>, f: Fields<T>, port: nat)
    requires port <= U16_MAX
    ensures ParsePair(v6, f, Pair("p", Decimal(port))) == Ok(f.(port := Some(port)))
  {
    PairSplits("p", Decimal(port));
    UnsignedRoundTrip(port, U16_MAX);
  }

  lemma ParseIpv4Pair<T>(v6: Ipv6Text<T>, f: Fields<T>, ip: Ipv4)
    ensures ParsePair(v6, f, Pair("ip4", ShowIpv4(ip))) == Ok(f.(ipv4 := Some(ip)))
  {
    Ipv4RoundTrip(ip);
    PairSplits("ip4", ShowIpv4(ip));
  }

  lemma ParseIpv6Pair<T(!new)>(v6: Ipv6Text<T>, f: Fields<T>, ip: T)
    requires Faithful(v6)
    ensures ParsePair(v6, f, Pair("ip6", v6.show(ip))) == Ok(f.(ipv6 := Some(ip)))
  {
    PairSplits("ip6", v6.show(ip));
  }

  lemma ParseGenerated<T(!new)>(v6: Ipv6Text<T>, publicKey: string, port: nat, ipv4: Option<Ipv4>, ipv6: Option<T>)
    requires Faithful(v6) && Plain(publicKey) && port <= U16_MAX
    ensures ParsePairs(v6, Pairs(v6, publicKey, port, ipv4, ipv6))
            == Ok(Fields(Some(VERSION), Some(publicKey), Some(port), ipv4, ipv6))
  {
    var f: Fields<T> := Fields(None, None, None, None, None);
    var one, two, three := Pair("v", "1"), Pair("pk", publicKey), Pair("p", Decimal(port));
    ParseKeyPair(v6, f, publicKey);
    ParseSnoc(v6, [], f, one);
    f := f.(version := Some(VERSION));
    ParseKeyPair(v6, f, publicKey);
    assert [] + [one] == [one];
    ParseSnoc(v6, [one], f, two);
    f := f.(publicKey := Some(publicKey));
    ParsePortPair(v6, f, port);
    assert [one] + [two] == [one, two];
    ParseSnoc(v6, [one, two], f, three);
    f := f.(port := Some(port));
    var pairs := [one, two, three];
    assert [one, two] + [three] == pairs;
    if ipv4.Some? {
      ParseIpv4Pair(v6, f, ipv4.value);
      ParseSnoc(v6, pairs, f, Pair("ip4", ShowIpv4(ipv4.value)));
      pairs, f := pairs + [Pair("ip4", ShowIpv4(ipv4.value))], f.(ipv4 := ipv4);
    }
    if ipv6.Some? {
      ParseIpv6Pair(v6, f, ipv6.value);
      ParseSnoc(v6, pairs, f, Pair("ip6", v6.show(ipv6.value)));
      pairs, f := pairs + [Pair("ip6", v6.show(ipv6.value))], f.(ipv6 := ipv6);
    }
    assert pairs == Pairs(v6, publicKey, port, ipv4, ipv6);
  }

  ghost predicate NoAmpersand(pairs: seq<string>) {
    forall i | 0 <= i < |pairs| :: '&' !in pairs[i]
  }

  lemma AddPair(pairs: seq<string>, key: string, value: string)
    requires NoAmpersand(pairs) && Plain(key) && Plain(value)
    ensures NoAmpersand(pairs + [Pair(key, value)])
  {
    assert '&' !in Pair(key, value);
  }

  lemma PairsHaveNoAmpersand<T(!new)>(v6: Ipv6Text<T>, publicKey: string, port: nat, ipv4: Option<Ipv4>,
                               ipv6: Option<T>)
    requires Faithful(v6) && Plain(publicKey)
    ensures NoAmpersand(Pairs(v6, publicKey, port, ipv4, ipv6))
  {
    AddPair([], "v", "1");
    AddPair([Pair("v", "1")], "pk", publicKey);
    assert [Pair("v", "1")] + [Pair("pk", publicKey)] == [Pair("v", "1"), Pair("pk", publicKey)];
    DecimalIsPlain(port);
    AddPair([Pair("v", "1"), Pair("pk", publicKey)], "p", Decimal(port));
    var pairs := [Pair("v", "1"), Pair("pk", publicKey), Pair("p", Decimal(port))];
    assert [Pair("v", "1"), Pair("pk", publicKey)] + [Pair("p", Decimal(port))] == pairs;
    if ipv4.Some? {
      Ipv4RoundTrip(ipv4.value);
      AddPair(pairs, "ip4", ShowIpv4(ipv4.value));
      pairs := pairs + [Pair("ip4", ShowIpv4(ipv4.value))];
    }
    if ipv6.Some? {
      AddPair(pairs, "ip6", v6.show(ipv6.value));
      pairs := pairs + [Pair("ip6", v6.show(ipv6.value))];
    }
    assert pairs == Pairs(v6, publicKey, port, ipv4, ipv6);
  }

  /** The generated pairs come apart again exactly where they were put together. */
  lemma UrlSplits<T(!new)>(v6: Ipv6Text<T>, publicKey: string, port: nat, ipv4: Option<Ipv4>, ipv6: Option<T>)
    requires Faithful(v6) && Plain(publicKey)
    ensures var url := Url(v6, publicKey, port, ipv4, ipv6);
            SCHEME <= url && Split(url[|SCHEME|..], '&') == Pairs(v6, publicKey, port, ipv4, ipv6)
  {
    PairsHaveNoAmpersand(v6, publicKey, port, ipv4, ipv6);
    var pairs := Pairs(v6, publicKey, port, ipv4, ipv6);
    var query := Join(pairs, '&');
    assert Split(query, '&') == pairs by {
      SplitJoin(pairs, '&');
    }
    assert (SCHEME + query)[|SCHEME|..] == query;
  }

  lemma {:induction false} PairsKeyIsPlain<T>(v6: Ipv6Text<T>, pairs: seq<string>)
    requires ParsePairs(v6, pairs).Ok? && forall i | 0 <= i < |pairs| :: '&' !in pairs[i]
    ensures var key := ParsePairs(v6, pairs).value.publicKey; key.Some? ==> Plain(key.value)
  {
    if pairs != [] {
      PairsKeyIsPlain(v6, Front(pairs));
      SplitSubset(Last(pairs), '=', '&');
      var parts := Split(Last(pairs), '=');
      assert parts[1] in parts;
    }
  }

  /** The key of an accepted URL never contains a separator, whatever the URL was. */
  lemma ParsedKeyIsPlain<T>(v6: Ipv6Text<T>, url: string)
    requires Parse(v6, url).Ok?
    ensures Plain(Parse(v6, url).value.publicKey)
  {
    var pairs := Split(url[|SCHEME|..], '&');
    assert forall i | 0 <= i < |pairs| :: pairs[i] in pairs;
    PairsKeyIsPlain(v6, pairs);
  }

  /**
   Parsing a generated URL gives back the key, port and addresses it was made from,
   with version 1, exactly when the key text contains neither `&` nor `=`. A hex
   key never does.
   */
  lemma UrlRoundTrip<T(!new)>(v6: Ipv6Text<T>, publicKey: string, port: nat, ipv4: Option<Ipv4>, ipv6: Option<T>)
    requires Faithful(v6) && port <= U16_MAX
    ensures Parse(v6, Url(v6, publicKey, port, ipv4, ipv6)) == Ok(Info(VERSION, publicKey, port, ipv4, ipv6))
            <==> Plain(publicKey)
  {
    var url := Url(v6, publicKey, port, ipv4, ipv6);
    if Plain(publicKey) {
      UrlSplits(v6, publicKey, port, ipv4, ipv6);
      ParseGenerated(v6, publicKey, port, ipv4, ipv6);
    }
    if Parse(v6, url).Ok? {
      ParsedKeyIsPlain(v6, url);
    }
  }

  // ---- Which URLs are accepted, and as what ---------------------------------

  predicate Named(pair: string, key: string) {
    var parts := Split(pair, '=');
    |parts| >= 2 && parts[0] == key
  }

  /** The text after the first `=`, up to the next one. */
  function ValueOf(pair: string): string {
    var parts := Split(pair, '=');
    if |parts| >= 2 then parts[1] else ""
  }

  /** The value given for `key` last. */
  function Given(pairs: seq<string>, key: string): Option<string> {
    if pairs == [] then None
    else if Named(Last(pairs), key) then Some(ValueOf(Last(pairs)))
    else Given(Front(pairs), key)
  }

  /** What is wrong with a pair, if anything. */
  predicate Wrong<T>(v6: Ipv6Text<T>, pair: string, e: UrlError) {
    match e
    case InvalidQuery => '=' !in pair
    case InvalidVersion => Named(pair, "v") && ParseUnsigned(ValueOf(pair), 0xFFFF_FFFF).None?
    case InvalidPort => Named(pair, "p") && ParseUnsigned(ValueOf(pair), 0xFFFF).None?
    case InvalidIpv4 => Named(pair, "ip4") && ParseIpv4(ValueOf(pair)).None?
    case InvalidIpv6 => Named(pair, "ip6") && v6.parse(ValueOf(pair)).None?
    case InvalidScheme => false
    case MissingField => false
  }

  ghost predicate Right<T>(v6: Ipv6Text<T>, pair: string) {
    forall e :: !Wrong(v6, pair, e)
  }

  ghost predicate AllRight<T>(v6: Ipv6Text<T>, pairs: seq<string>) {
    forall i | 0 <= i < |pairs| :: Right(v6, pairs[i])
  }

  /** The first pair something is wrong with, and what. */
  ghost predicate FirstWrong<T>(v6: Ipv6Text<T>, pairs: seq<string>, i: nat, e: UrlError) {
    i < |pairs| && AllRight(v6, pairs[..i]) && Wrong(v6, pairs[i], e)
  }

  ghost predicate FirstError<T>(v6: Ipv6Text<T>, pairs: seq<string>, e: UrlError) {
    exists i: nat :: FirstWrong(v6, pairs, i, e)
  }

  lemma PairIff<T>(v6: Ipv6Text<T>, f: Fields<T>, pair: string)
    ensures forall e :: ParsePair(v6, f, pair) == Err(e) <==> Wrong(v6, pair, e)
    ensures ParsePair(v6, f, pair).Ok? <==> Right(v6, pair)
  {
    if '=' !in pair {
      SplitAbsent(pair, '=');
    } else {
      var i := IndexOf(pair, '=');
      assert i < |pair|;
    }
  }

  /** The fields after the pairs are the last values given. */
  ghost predicate Holds<T>(v6: Ipv6Text<T>, pairs: seq<string>, f: Fields<T>) {
    var v, p, ip4, ip6 := Given(pairs, "v"), Given(pairs, "p"), Given(pairs, "ip4"), Given(pairs, "ip6");
    && f.version == (if v.Some? then ParseUnsigned(v.value, 0xFFFF_FFFF) else None)
    && f.publicKey == Given(pairs, "pk")
    && f.port == (if p.Some? then ParseUnsigned(p.value, 0xFFFF) else None)
    && f.ipv4 == (if ip4.Some? then ParseIpv4(ip4.value) else None)
    && f.ipv6 == (if ip6.Some? then v6.parse(ip6.value) else None)
    && (v.Some? ==> f.version.Some?) && (p.Some? ==> f.port.Some?)
  }

  lemma GivenMore(pairs: seq<string>, pair: string, key: string)
    ensures Given(pairs + [pair], key) == if Named(pair, key) then Some(ValueOf(pair)) else Given(pairs, key)
  {
    assert Front(pairs + [pair]) == pairs;
  }

  /** One more pair that is right replaces the value of its key only. */
  lemma PairHolds<T>(v6: Ipv6Text<T>, pairs: seq<string>, f: Fields<T>, pair: string)
    requires Holds(v6, pairs, f) && ParsePair(v6, f, pair).Ok?
    ensures Holds(v6, pairs + [pair], ParsePair(v6, f, pair).value)
  {
    GivenMore(pairs, pair, "v");
    GivenMore(pairs, pair, "pk");
    GivenMore(pairs, pair, "p");
    GivenMore(pairs, pair, "ip4");
    GivenMore(pairs, pair, "ip6");
  }

  lemma {:induction false} PairsHold<T>(v6: Ipv6Text<T>, pairs: seq<string>)
    requires ParsePairs(v6, pairs).Ok?
    ensures Holds(v6, pairs, ParsePairs(v6, pairs).value)
  {
    if pairs != [] {
      var front, last := Front(pairs), Last(pairs);
      PairsHold(v6, front);
      assert pairs == front + [last];
      var f := ParsePairs(v6, front).value;
      ParseSnoc(v6, front, f, last);
      PairHolds(v6, front, f, last);
    }
  }

  lemma {:induction false} PairsRight<T>(v6: Ipv6Text<T>, pairs: seq<string>)
    requires ParsePairs(v6, pairs).Ok?
    ensures AllRight(v6, pairs)
  {
    if pairs != [] {
      PairsRight(v6, Front(pairs));
      PairIff(v6, ParsePairs(v6, Front(pairs)).value, Last(pairs));
    }
  }

  lemma {:induction false} PairsFail<T>(v6: Ipv6Text<T>, pairs: seq<string>) returns (i: nat)
    requires ParsePairs(v6, pairs).Err?
    ensures FirstWrong(v6, pairs, i, ParsePairs(v6, pairs).error)
  {
    var front := Front(pairs);
    var before := ParsePairs(v6, front);
    if before.Err? {
      i := PairsFail(v6, front);
      assert front[..i] == pairs[..i];
    } else {
      PairsRight(v6, front);
      PairIff(v6, before.value, Last(pairs));
      i := |front|;
      assert pairs[..i] == front;
    }
  }

  lemma OneFirstWrong<T>(v6: Ipv6Text<T>, pairs: seq<string>, i: nat, d: UrlError, j: nat, e: UrlError)
    requires FirstWrong(v6, pairs, i, d) && FirstWrong(v6, pairs, j, e)
    ensures d == e
  {
    if i == j && '=' !in pairs[i] {
      SplitAbsent(pairs[i], '=');
    }
  }

  /** The first pair that is wrong names the error; a wrong scheme comes before. */
  lemma RefusedIff<T>(v6: Ipv6Text<T>, url: string, e: UrlError)
    requires e != MissingField
    ensures Parse(v6, url) == Err(e) <==>
            if "tapauth://pair?" <= url then FirstError(v6, Split(url[15..], '&'), e) else e == InvalidScheme
  {
    if SCHEME <= url {
      assert |SCHEME| == 15;
      var pairs := Split(url[15..], '&');
      var fields := ParsePairs(v6, pairs);
      if fields.Ok? {
        PairsRight(v6, pairs);
      } else {
        var i := PairsFail(v6, pairs);
        assert Parse(v6, url) == Err(fields.error);
        assert FirstError(v6, pairs, fields.error);
        if FirstError(v6, pairs, e) {
          var j: nat :| FirstWrong(v6, pairs, j, e);
          OneFirstWrong(v6, pairs, i, fields.error, j, e);
        }
      }
    }
  }

  /**
   Exactly which URLs are accepted, and as what: no pair is wrong, and version, key and
   port are given. Of a key given twice the last value counts, and keys nobody knows are
   skipped.
   */
  lemma AcceptedIff<T>(v6: Ipv6Text<T>, url: string)
    requires "tapauth://pair?" <= url
    ensures var pairs, r := Split(url[15..], '&'), Parse(v6, url);
            var given := Given(pairs, "v").Some? && Given(pairs, "pk").Some? && Given(pairs, "p").Some?;
            && (r.Ok? <==> AllRight(v6, pairs) && given)
            && (r == Err(MissingField) <==> AllRight(v6, pairs) && !given)
            && (r.Ok? ==> var Info(version, key, port, ipv4, ipv6) := r.value;
                          Holds(v6, pairs, Fields(Some(version), Some(key), Some(port), ipv4, ipv6)))
  {
    assert |SCHEME| == 15;
    var pairs := Split(url[15..], '&');
    if ParsePairs(v6, pairs).Ok? {
      PairsRight(v6, pairs);
      PairsHold(v6, pairs);
    } else {
      var i := PairsFail(v6, pairs);
      assert Wrong(v6, pairs[i], ParsePairs(v6, pairs).error);
    }
  }

  // ---- The GUI's own port reader --------------------------------------------

  const PORT_MARK := "&p="

  /** The GUI takes the text between the first `&p=` and the next `&` for the port. */
  function GuiPort(url: string): Option<nat> {
    var piece := SecondPiece(url, PORT_MARK);
    if piece.None? then None else ParseUnsigned(Split(piece.value, '&')[0], U16_MAX)
  }

  /** Everything before the port of a generated URL. */
  function Lead(publicKey: string): string {
    "tapauth://pair?v=1&pk=" + publicKey
  }

  lemma LeadShape(publicKey: string)
    ensures SCHEME + Pair("v", "1") + ['&'] + Pair("pk", publicKey) == Lead(publicKey)
  {
  }

  lemma Regroup(scheme: string, one: string, two: string, text: string, tail: string)
    ensures scheme + ((one + ['&'] + two + ['&'] + Pair("p", text)) + tail)
            == (scheme + one + ['&'] + two) + PORT_MARK + (text + tail)
  {
    assert ['&'] + Pair("p", text) == PORT_MARK + text;
  }

  lemma UrlShape<T>(v6: Ipv6Text<T>, publicKey: string, port: nat, ipv4: Option<Ipv4>,
                    ipv6: Option<T>) returns (tail: string)
    ensures Url(v6, publicKey, port, ipv4, ipv6) == Lead(publicKey) + PORT_MARK + (Decimal(port) + tail)
    ensures tail == [] || tail[0] == '&'
  {
    var one, two, three := Pair("v", "1"), Pair("pk", publicKey), Pair("p", Decimal(port));
    var more := (if ipv4.Some? then [Pair("ip4", ShowIpv4(ipv4.value))] else [])
      + (if ipv6.Some? then [Pair("ip6", v6.show(ipv6.value))] else []);
    assert Pairs(v6, publicKey, port, ipv4, ipv6) == [one, two, three] + more;
    tail := JoinMore([one, two, three], more, '&');
    JoinThree(one, two, three, '&');
    LeadShape(publicKey);
    Regroup(SCHEME, one, two, Decimal(port), tail);
  }

  /** No `&p=` starts inside the lead: its only `&` is the one of `&pk=`. */
  lemma PortMarkFollowsLead(publicKey: string, rest: string)
    requires '&' !in publicKey
    ensures Find(Lead(publicKey) + PORT_MARK + rest, PORT_MARK) == |Lead(publicKey)|
  {
    var lead := Lead(publicKey);
    var url := lead + PORT_MARK + rest;
    assert PORT_MARK <= url[|lead|..];
    forall k | 0 <= k < |lead| ensures !(PORT_MARK <= url[k..]) {
      assert url[k..][0] == lead[k] && url[k..][2] == url[k + 2];
      assert k >= 22 ==> lead[k] == publicKey[k - 22];
    }
  }

  lemma FirstPieceIsPort(port: string, tail: string, n: nat)
    requires '&' !in port && |port| <= n <= |port| + |tail| && (tail == [] || tail[0] == '&')
    ensures Split((port + tail)[..n], '&')[0] == port
  {
    var piece := (port + tail)[..n];
    if n == |port| {
      assert piece == port;
      SplitAbsent(port, '&');
    } else {
      assert piece == port + ['&'] + tail[1..n - |port|];
      SplitFirst(port, '&', tail[1..n - |port|]);
    }
  }

  /** The GUI reads the same port off a generated URL as the parser does. */
  lemma GuiReadsTheSamePort<T>(v6: Ipv6Text<T>, publicKey: string, port: nat, ipv4: Option<Ipv4>, ipv6: Option<T>)
    requires '&' !in publicKey && port <= U16_MAX
    ensures GuiPort(Url(v6, publicKey, port, ipv4, ipv6)) == Some(port)
  {
    var tail := UrlShape(v6, publicKey, port, ipv4, ipv6);
    var lead, text := Lead(publicKey), Decimal(port);
    var rest := text + tail;
    var url := lead + PORT_MARK + rest;
    PortMarkFollowsLead(publicKey, rest);
    assert url[|lead| + |PORT_MARK|..] == rest;
    var n := Find(rest, PORT_MARK);
    DecimalIsPlain(port);
    assert forall m | 0 <= m < |text| :: rest[m..][0] == text[m] != '&';
    FirstPieceIsPort(text, tail, n);
    UnsignedRoundTrip(port, U16_MAX);
  }

  // ---- The code -------------------------------------------------------------

  /** `generate_pairing_url`. */
  method GeneratePairingUrl<T>(v6: Ipv6Text<T>, publicKey: string, port: nat, ipv4: Option<Ipv4>, ipv6: Option<T>)
      returns (url: string)
    ensures url == Url(v6, publicKey, port, ipv4, ipv6)
  {
    var one, two, three := Pair("v", "1"), Pair("pk", publicKey), Pair("p", Decimal(port));
    url := SCHEME + (one + ['&'] + two + ['&'] + three);
    ghost var pairs := [one, two, three];
    JoinThree(one, two, three, '&');
    if ipv4.Some? {
      var pair := Pair("ip4", ShowIpv4(ipv4.value));
      JoinSnoc(pairs, pair, '&');
      url := url + (['&'] + pair);
      pairs := pairs + [pair];
    }
    if ipv6.Some? {
      var pair := Pair("ip6", v6.show(ipv6.value));
      JoinSnoc(pairs, pair, '&');
      url := url + (['&'] + pair);
      pairs := pairs + [pair];
    }
    assert pairs == Pairs(v6, publicKey, port, ipv4, ipv6);
  }

  /** `PairingInfo::parse`: duplicates keep the last value, unknown keys are skipped. */
  method ParseUrl<T>(v6: Ipv6Text<T>, url: string) returns (r: Result<Info<T>, UrlError>)
    ensures r == Parse(v6, url)
  {
    if !(SCHEME <= url) {
      return Err(InvalidScheme);
    }
    var query := url[|SCHEME|..];
    var fields: Fields<T> := Fields(None, None, None, None, None);
    var pairs := Split(query, '&');
    for i := 0 to |pairs|
      invariant ParsePairs(v6, pairs[..i]) == Ok(fields)
    {
      assert Front(pairs[..i + 1]) == pairs[..i];
      var next := ParsePair(v6, fields, pairs[i]);
      if next.Err? {
        FirstErrorStays(v6, pairs, i + 1);
        return Err(next.error);
      }
      fields := next.value;
    }
    assert pairs[..|pairs|] == pairs;
    r := Complete(fields);
  }

  lemma {:induction false} FirstErrorStays<T>(v6: Ipv6Text<T>, pairs: seq<string>, n: nat)
    requires n <= |pairs| && ParsePairs(v6, pairs[..n]).Err?
    ensures ParsePairs(v6, pairs) == ParsePairs(v6, pairs[..n])
  {
    if n == |pairs| {
      assert pairs[..n] == pairs;
    } else {
      assert Front(pairs)[..n] == pairs[..n];
      FirstErrorStays(v6, Front(pairs), n);
    }
  }
}
