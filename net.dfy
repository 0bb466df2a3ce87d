/**
 * The parts of System.Net the port knocker depends on: IP addresses with
 * their address family, IPAddress.TryParse, IPAddress.ToString, and the
 * outcome of a DNS lookup (Dns.GetHostAddresses), which is supplied to the
 * model from outside as a function of the host name.
 */
module Net {

  import opened Wrappers
  import opened Text

  /**
   * An IP address. InterNetwork (IPv4) addresses carry their four octets in
   * network order; IPv6 addresses are kept as the text they were read from.
   */
  datatype IpAddress = V4(a: Octet, b: Octet, c: Octet, d: Octet) | V6(text: string) {
    /** AddressFamily.InterNetwork */
    predicate IsInterNetwork() { V4? }
  }

  /** One byte of an IPv4 address. */
  type Octet = x: int | 0 <= x < 256

  /** What a DNS lookup of a host name yields: the addresses, or an exception. */
  datatype DnsResult = Resolved(addresses: seq<IpAddress>) | DnsFailure(message: string)

  /** Decimal text of one octet, as IPAddress.ToString writes it. */
  function OctetText(x: Octet): (t: string)
    ensures 1 <= |t| <= 3 && AllDigits(t)
  {
    NatText(x)
  }

  /** One dotted-decimal component: 1 to 3 digits, no leading zero, at most 255. */
  function ParseOctet(t: string): (r: Option<Octet>)
    ensures r.Some? ==> 1 <= |t| <= 3 && AllDigits(t)
  {
    if 1 <= |t| <= 3 && AllDigits(t) && (t[0] != '0' || |t| == 1) && DigitsValue(t) <= 255
    then Some(DigitsValue(t))
    else None
  }

  /** Text of an address, as IPAddress.ToString gives it. */
  function AddressText(ip: IpAddress): (s: string)
    ensures ip.V4? ==> DigitsAndDots(s)
  {
    match ip
    case V4(a, b, c, d) =>
      var parts := [OctetText(a), OctetText(b), OctetText(c), OctetText(d)];
      JoinedDigitsAndDots(parts);
      Join(parts, '.')
    case V6(text) => text
  }

  predicate DigitsAndDots(s: string) {
    forall k :: 0 <= k < |s| ==> IsDigit(s[k]) || s[k] == '.'
  }

  lemma {:induction false} JoinedDigitsAndDots(parts: seq<string>)
    requires |parts| >= 1 && forall i :: 0 <= i < |parts| ==> AllDigits(parts[i])
    ensures DigitsAndDots(Join(parts, '.'))
  {
    var s := Join(parts, '.');
    var p0 := parts[0];
    assert AllDigits(p0);
    if |parts| == 1 {
      assert s == p0;
    } else {
      JoinedDigitsAndDots(parts[1..]);
      var rest := Join(parts[1..], '.');
      assert s == p0 + ['.'] + rest;
      forall k | 0 <= k < |s| ensures IsDigit(s[k]) || s[k] == '.' {
        if k < |p0| {
          assert s[k] == p0[k];
        } else if k > |p0| {
          assert s[k] == rest[k - |p0| - 1];
        }
      }
    }
  }

  /** Strict dotted-decimal IPv4 text: four octets separated by dots. */
  function ParseIPv4(s: string): (r: Option<IpAddress>)
    ensures r.Some? ==> r.value.V4?
  {
    var parts := Split(s, {'.'});
    if |parts| != 4 then None
    else
      match (ParseOctet(parts[0]), ParseOctet(parts[1]), ParseOctet(parts[2]), ParseOctet(parts[3]))
      case (Some(a), Some(b), Some(c), Some(d)) => Some(V4(a, b, c, d))
      case _ => None
  }

  predicate IsHexDigit(c: char) {
    IsDigit(c) || 'a' <= c <= 'f' || 'A' <= c <= 'F'
  }

  /**
   * Text shaped like an IPv6 literal: at least two colons (the shortest
   * IPv6 text, "::", has two), and only hex digits, colons and dots.
   */
  predicate LooksLikeIPv6(s: string) {
    (exists i, j :: 0 <= i < j < |s| && s[i] == ':' && s[j] == ':')
    && forall k :: 0 <= k < |s| ==> IsHexDigit(s[k]) || s[k] == ':' || s[k] == '.'
  }

  /** IPAddress.TryParse: an IPv4 dotted quad, or an IPv6 literal. */
  function ParseAddress(s: string): (r: Option<IpAddress>)
    ensures r.Some? && r.value.V6? ==> r.value.text == s
  {
    match ParseIPv4(s)
    case Some(ip) => Some(ip)
    case None => if LooksLikeIPv6(s) then Some(V6(s)) else None
  }

  lemma ParseOctetText(x: Octet)
    ensures ParseOctet(OctetText(x)) == Some(x)
  {
  }

  lemma ParseOctetCanonical(t: string, x: Octet)
    requires ParseOctet(t) == Some(x)
    ensures t == OctetText(x)
  {
    NatTextOfDigits(t);
  }

  /** Printing an IPv4 address and parsing the text gives the address back. */
  lemma ParseAddressText(ip: IpAddress)
    requires ip.V4?
    ensures ParseAddress(AddressText(ip)) == Some(ip)
  {
    var parts := [OctetText(ip.a), OctetText(ip.b), OctetText(ip.c), OctetText(ip.d)];
    forall i | 0 <= i < 4 ensures Excludes(parts[i], {'.'}) {
      assert AllDigits(parts[i]);
    }
    SplitJoin(parts, '.', {'.'});
    ParseOctetText(ip.a);
    ParseOctetText(ip.b);
    ParseOctetText(ip.c);
    ParseOctetText(ip.d);
  }

  /** The only text that parses to a given IPv4 address is that address's own text. */
  lemma ParseAddressCanonical(s: string, ip: IpAddress)
    requires ParseAddress(s) == Some(ip) && ip.V4?
    ensures s == AddressText(ip)
  {
    var parts := Split(s, {'.'});
    assert ParseIPv4(s) == Some(ip);
    ParseOctetCanonical(parts[0], ip.a);
    ParseOctetCanonical(parts[1], ip.b);
    ParseOctetCanonical(parts[2], ip.c);
    ParseOctetCanonical(parts[3], ip.d);
    JoinSplit(s, '.');
    assert parts == [OctetText(ip.a), OctetText(ip.b), OctetText(ip.c), OctetText(ip.d)];
  }

  /** Two IPv4 addresses have the same text exactly when they are the same address. */
  lemma AddressTextInjective(x: IpAddress, y: IpAddress)
    requires x.V4? && y.V4?
    ensures AddressText(x) == AddressText(y) <==> x == y
  {
    ParseAddressText(x);
    ParseAddressText(y);
  }
}
