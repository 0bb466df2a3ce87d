/**
 * IPv4 prefix ("CIDR") matching, as section 3.1 of RFC 4632 writes prefixes:
 * `a.b.c.d/n` names the addresses whose top n bits equal those of a.b.c.d.
 * Addresses and masks are the unsigned 32-bit values of the source.
 */
module IpUtils {

  import opened Wrappers
  import opened Text
  import opened Net
  import opened Bits

  /**
   * The address as a `uint`: its octets in network order read as a
   * big-endian number (the bytes are reversed on a little-endian host and
   * then read little-endian).
   */
  function ToUInt(ip: IpAddress): UInt32
    requires ip.V4?
  {
    ip.a * 0x100_0000 + ip.b * 0x1_0000 + ip.c * 0x100 + ip.d
  }

  /** The IPv4 address whose `uint` value is `v`. */
  function FromUInt(v: UInt32): (ip: IpAddress)
    ensures ip.V4?
  {
    V4(v / 0x100_0000, (v / 0x1_0000) % 0x100, (v / 0x100) % 0x100, v % 0x100)
  }

  /** Reading the octets back out of an address's value gives the address. */
  lemma FromToUInt(ip: IpAddress)
    requires ip.V4?
    ensures FromUInt(ToUInt(ip)) == ip
  {
    var x := ToUInt(ip);
    assert x / 0x100 == ip.a * 0x1_0000 + ip.b * 0x100 + ip.c;
    assert x / 0x1_0000 == ip.a * 0x100 + ip.b;
    assert x / 0x100_0000 == ip.a;
  }

  /** Every `uint` is the value of an IPv4 address. */
  lemma ToFromUInt(v: UInt32)
    ensures ToUInt(FromUInt(v)) == v
  {
    var h := v / 0x100;
    var g := v / 0x1_0000;
    assert g == h / 0x100;
    assert v / 0x100_0000 == g / 0x100;
  }

  /** Different IPv4 addresses have different values. */
  lemma ToUIntInjective(x: IpAddress, y: IpAddress)
    requires x.V4? && y.V4?
    ensures ToUInt(x) == ToUInt(y) <==> x == y
  {
    FromToUInt(x);
    FromToUInt(y);
  }

  /** The outcome of TryParseCidr: its return value and its two out parameters. */
  datatype CidrParse = CidrParse(ok: bool, network: UInt32, mask: UInt32)

  const Failed := CidrParse(false, 0, 0)

  /**
   * The checks TryParseCidr makes before computing anything: the text is not
   * blank, splits on '/' into exactly two parts, the first (trimmed) is an
   * IPv4 address and the second (trimmed) a 32-bit integer in 0..32.
   */
  function ParseCidr(cidr: string): (r: Option<(IpAddress, int)>)
    ensures r.Some? ==> r.value.0.V4? && 0 <= r.value.1 <= 32
    ensures IsBlank(cidr) ==> r.None?
  {
    if IsBlank(cidr) then None
    else
      var parts := Split(cidr, {'/'});
      if |parts| != 2 then None
      else
        var baseIp := ParseAddress(Trim(parts[0]));
        var prefix := ParseInt32(Trim(parts[1]));
        if baseIp.None? || prefix.None? then None
        else if !baseIp.value.V4? then None
        else if prefix.value < 0 || prefix.value > 32 then None
        else Some((baseIp.value, prefix.value))
  }

  /**
   * Each of TryParseCidr's checks is needed and together they suffice: the
   * text parses exactly when it is not blank, splits on '/' into two parts,
   * the first trimmed part is an IPv4 address and int.TryParse reads the
   * second trimmed part as a prefix in 0..32; the result is that address
   * and prefix.
   */
  lemma ParseCidrMeaning(cidr: string)
    ensures var parts := Split(cidr, {'/'});
      ParseCidr(cidr).Some? <==>
        && !IsBlank(cidr) && |parts| == 2
        && ParseAddress(Trim(parts[0])).Some? && ParseAddress(Trim(parts[0])).value.V4?
        && TryParseInt(Trim(parts[1])).Some? && 0 <= TryParseInt(Trim(parts[1])).value <= 32
    ensures var parts := Split(cidr, {'/'});
      ParseCidr(cidr).Some? ==>
        ParseCidr(cidr).value == (ParseAddress(Trim(parts[0])).value, TryParseInt(Trim(parts[1])).value)
  {
    var parts := Split(cidr, {'/'});
    if |parts| == 2 {
      TryParseIntOfTrimmed(parts[1]);
    }
  }

  /** The block `base/prefix`: the mask of the prefix and the base masked by it. */
  function Block(base: IpAddress, prefix: int): CidrParse
    requires base.V4? && 0 <= prefix <= 32
  {
    var mask := PrefixMask(prefix);
    CidrParse(true, And(ToUInt(base), mask), mask)
  }

  /**
   * IpUtils.TryParseCidr: a block when the checks pass; otherwise false with
   * both out parameters 0.
   */
  function TryParseCidr(cidr: string): (r: CidrParse)
    ensures r.ok <==> ParseCidr(cidr).Some?
    ensures !r.ok ==> r.network == 0 && r.mask == 0
    ensures IsBlank(cidr) ==> !r.ok
  {
    match ParseCidr(cidr)
    case None => Failed
    case Some((base, prefix)) => Block(base, prefix)
  }

  /** The network of a block has no bits outside its mask. */
  lemma BlockNetworkMasked(base: IpAddress, prefix: int)
    requires base.V4? && 0 <= prefix <= 32
    ensures And(Block(base, prefix).network, Block(base, prefix).mask) == Block(base, prefix).network
  {
    AndIdempotent(ToUInt(base), PrefixMask(prefix));
  }

  /**
   * IpUtils.IpInCidr: the address must be IPv4 text and the block must parse;
   * then the address is inside exactly when masking it gives the network.
   */
  function IpInCidr(ip: string, cidr: string): (r: bool)
    ensures r ==> ParseAddress(ip).Some? && ParseAddress(ip).value.V4? && ParseCidr(cidr).Some?
  {
    InBlock(ParseAddress(ip), TryParseCidr(cidr))
  }

  /** The comparison IpInCidr makes once both texts have been parsed. */
  predicate InBlock(addr: Option<IpAddress>, block: CidrParse) {
    addr.Some? && addr.value.V4? && block.ok && And(ToUInt(addr.value), block.mask) == block.network
  }

  /** The canonical text `a.b.c.d/n` of a prefix. */
  function CidrText(base: IpAddress, prefix: int): string {
    AddressText(base) + "/" + IntText(prefix)
  }

  /** The text of an IPv4 address holds no '/' and no white space. */
  lemma AddressTextPlain(base: IpAddress)
    requires base.V4?
    ensures Excludes(AddressText(base), {'/'})
    ensures Trim(AddressText(base)) == AddressText(base)
  {
    var a := AddressText(base);
    assert DigitsAndDots(a);
    TrimOfTrimmed(a);
  }

  /** The text of an integer holds no '/' and no white space. */
  lemma IntTextPlain(n: int)
    ensures Excludes(IntText(n), {'/'})
    ensures Trim(IntText(n)) == IntText(n)
  {
    IntTextChars(n);
    TrimOfTrimmed(IntText(n));
  }

  /** `a.b.c.d/n` splits on '/' into the address text and the prefix text, both already trimmed. */
  lemma CidrTextParts(base: IpAddress, prefix: int)
    requires base.V4?
    ensures Split(CidrText(base, prefix), {'/'}) == [AddressText(base), IntText(prefix)]
    ensures Trim(AddressText(base)) == AddressText(base)
    ensures Trim(IntText(prefix)) == IntText(prefix)
  {
    var a := AddressText(base);
    var p := IntText(prefix);
    AddressTextPlain(base);
    IntTextPlain(prefix);
    SplitCons(a, '/', p, {'/'});
    SplitNoSeparator(p, {'/'});
  }

  /** A well-formed `a.b.c.d/n` passes the checks with its own base and prefix. */
  lemma ParseCidrText(base: IpAddress, prefix: int)
    requires base.V4? && 0 <= prefix <= 32
    ensures ParseCidr(CidrText(base, prefix)) == Some((base, prefix))
  {
    var cidr := CidrText(base, prefix);
    CidrTextParts(base, prefix);
    ParseAddressText(base);
    ParseIntText(prefix);
    assert !IsWhiteSpace(cidr[0]);
  }

  /** So TryParseCidr gives the block of that base and prefix. */
  lemma TryParseCidrText(base: IpAddress, prefix: int)
    requires base.V4? && 0 <= prefix <= 32
    ensures TryParseCidr(CidrText(base, prefix)) == Block(base, prefix)
  {
    ParseCidrText(base, prefix);
  }

  /** A prefix length outside 0..32 is refused, whatever the base. */
  lemma TryParseCidrRejectsPrefix(base: IpAddress, prefix: int)
    requires base.V4? && (prefix < 0 || prefix > 32)
    ensures !TryParseCidr(CidrText(base, prefix)).ok
  {
    CidrTextParts(base, prefix);
    if Int32Min <= prefix <= Int32Max {
      ParseIntText(prefix);
    } else {
      ParseIntTextOutOfRange(prefix);
    }
  }

  /** Once both texts have parsed, IpInCidr is the comparison with the parsed block. */
  lemma IpInCidrParsed(ip: string, cidr: string, addr: IpAddress, base: IpAddress, prefix: int)
    requires ParseAddress(ip) == Some(addr) && addr.V4? && ParseCidr(cidr) == Some((base, prefix))
    ensures IpInCidr(ip, cidr) == InBlock(Some(addr), Block(base, prefix))
  {
  }

  /**
   * An IPv4 address is in the block `base/prefix` exactly when its top
   * `prefix` bits are those of the base.
   */
  lemma InBlockMeaning(addr: IpAddress, base: IpAddress, prefix: int)
    requires addr.V4? && base.V4? && 0 <= prefix <= 32
    ensures InBlock(Some(addr), Block(base, prefix)) <==> SamePrefix(ToUInt(addr), ToUInt(base), prefix)
  {
    MaskedEqual(ToUInt(addr), ToUInt(base), prefix);
  }

  /**
   * Text that parses to an IPv4 address is in a block that passes the checks
   * as `base/prefix` exactly when its top `prefix` bits are those of the base.
   */
  lemma IpInCidrMeaning(ip: string, cidr: string, addr: IpAddress, base: IpAddress, prefix: int)
    requires ParseAddress(ip) == Some(addr) && addr.V4? && ParseCidr(cidr) == Some((base, prefix))
    ensures IpInCidr(ip, cidr) <==> SamePrefix(ToUInt(addr), ToUInt(base), prefix)
  {
    IpInCidrParsed(ip, cidr, addr, base, prefix);
    InBlockMeaning(addr, base, prefix);
  }

  /** The same, for the canonical texts of an address and a block. */
  lemma IpInCidrText(addr: IpAddress, base: IpAddress, prefix: int)
    requires addr.V4? && base.V4? && 0 <= prefix <= 32
    ensures IpInCidr(AddressText(addr), CidrText(base, prefix))
        <==> SamePrefix(ToUInt(addr), ToUInt(base), prefix)
  {
    ParseAddressText(addr);
    ParseCidrText(base, prefix);
    IpInCidrMeaning(AddressText(addr), CidrText(base, prefix), addr, base, prefix);
  }

  /** A /0 block holds every IPv4 address. */
  lemma PrefixZeroMatchesAll(addr: IpAddress, base: IpAddress)
    requires addr.V4? && base.V4?
    ensures IpInCidr(AddressText(addr), CidrText(base, 0))
  {
    IpInCidrText(addr, base, 0);
    Pow2ThirtyTwo();
    ShiftRightSmall(ToUInt(addr), 32);
    ShiftRightSmall(ToUInt(base), 32);
  }

  /** A /32 block holds its base address and no other. */
  lemma PrefixThirtyTwoMatchesOnlyBase(addr: IpAddress, base: IpAddress)
    requires addr.V4? && base.V4?
    ensures IpInCidr(AddressText(addr), CidrText(base, 32)) <==> addr == base
  {
    IpInCidrText(addr, base, 32);
    ToUIntInjective(addr, base);
  }

  /** Text that is not an IPv4 address never matches a block. */
  lemma NonIPv4NeverMatches(ip: string, cidr: string)
    requires ParseAddress(ip).None? || ParseAddress(ip).value.V6?
    ensures !IpInCidr(ip, cidr)
  {
  }
}
