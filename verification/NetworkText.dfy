/**
 Deterministic parsing of networking text: dotted masks, `address/prefix` and `address mask`
 forms, and the four passes over one text that claim spans of it by precedence. Pattern
 matching is not modelled: each pass is given its matches, with the pieces already split.
 */
module NetworkText {
  import opened Wrappers
  import opened Addressing
  import opened Lists
  import opened SpanClaims

  // ---------- Masks ----------

  /** The binary digits of a number, highest first. */
  function Bits(n: nat, width: nat): (r: seq<bool>)
    ensures |r| == width
  {
    if width == 0 then [] else Bits(n / 2, width - 1) + [n % 2 == 1]
  }

  predicate RiseAt(bits: seq<bool>, i: int) {
    0 <= i < |bits| - 1 && !bits[i] && bits[i + 1]
  }

  /** A zero immediately followed by a one. */
  predicate HasRise(bits: seq<bool>) {
    exists i | 0 <= i < |bits| :: RiseAt(bits, i)
  }

  function Ones(bits: seq<bool>): (r: nat)
    ensures r <= |bits|
  {
    if bits == [] then 0 else Ones(bits[..|bits| - 1]) + if bits[|bits| - 1] then 1 else 0
  }

  function Reading(value: nat, width: nat): (r: Option<nat>)
    ensures r.Some? ==> r.value <= width
  {
    var bits := Bits(value, width);
    if HasRise(bits) then None else Some(Ones(bits))
  }

  const ALL_ONES: nat := 0xFFFFFFFF

  /** A packed IPv4 value. */
  type Word = n: nat | n <= ALL_ONES

  /** The mask as written, or else as a wildcard, unless that would be all ones or none. */
  function NetmaskToPrefix(packed: Word): (r: Option<nat>)
    ensures r.Some? ==> r.value <= 32
  {
    var direct := Reading(packed, 32);
    if direct.Some? then direct
    else
      var inverted := Reading(ALL_ONES - packed, 32);
      if inverted.Some? && inverted.value != 0 && inverted.value != 32 then inverted else None
  }

  lemma Pow2AtMost(m: nat, n: nat)
    requires m <= n
    ensures Pow2(m) <= Pow2(n)
  {
    if m < n {
      Pow2Grows(m, n);
    }
  }

  /** The word of `width` bits whose highest `length` bits are one. */
  function Mask(width: nat, length: nat): nat
    requires length <= width
  {
    Pow2AtMost(width - length, width);
    Pow2(width) - Pow2(width - length)
  }

  function PrefixToNetmask(prefix: int): Option<nat> {
    if 0 <= prefix <= 32 then Some(Mask(32, prefix)) else None
  }

  lemma RiseAtEnd(front: seq<bool>, b: bool)
    ensures HasRise(front + [b]) <==> HasRise(front) || (front != [] && !front[|front| - 1] && b)
    ensures Ones(front + [b]) == Ones(front) + if b then 1 else 0
  {
    var bits := front + [b];
    assert bits[..|bits| - 1] == front;
    forall i | 0 <= i < |front| - 1 ensures RiseAt(bits, i) <==> RiseAt(front, i) {
    }
    if front != [] {
      assert RiseAt(bits, |front| - 1) <==> !front[|front| - 1] && b;
    }
  }

  lemma MaskHalves(width: nat, length: nat)
    requires length < width
    ensures Mask(width, length) == 2 * Mask(width - 1, length)
  {
  }

  lemma OddMaskIsFull(width: nat, length: nat)
    requires length <= width && width > 0 && Mask(width, length) % 2 == 1
    ensures length == width
  {
    if length < width {
      MaskHalves(width, length);
    }
  }

  lemma LastBit(half: nat, bit: bool, width: nat)
    requires width > 0
    ensures Bits(2 * half + if bit then 1 else 0, width) == Bits(half, width - 1) + [bit]
  {
    assert (2 * half + if bit then 1 else 0) / 2 == half;
  }

  /** The mask one bit shorter, which a mask of `length` ones starts with. */
  function Shorter(width: nat, length: nat): nat
    requires length <= width && width > 0
  {
    Mask(width - 1, if length < width then length else width - 1)
  }

  lemma MaskFromShorter(width: nat, length: nat)
    requires length <= width && width > 0
    ensures Mask(width, length) == 2 * Shorter(width, length) + if length == width then 1 else 0
  {
    if length < width {
      MaskHalves(width, length);
    }
  }

  predicate IsRun(bits: seq<bool>, length: nat) {
    && !HasRise(bits) && Ones(bits) == length
    && (0 < length == |bits| ==> bits[|bits| - 1])
  }

  lemma RunGrows(front: seq<bool>, length: nat, bit: bool)
    requires IsRun(front, length) && (bit ==> length == |front|)
    ensures IsRun(front + [bit], length + if bit then 1 else 0)
  {
    RiseAtEnd(front, bit);
  }

  lemma {:induction false} MaskHasNoRise(width: nat, length: nat)
    requires length <= width
    ensures IsRun(Bits(Mask(width, length), width), length)
    decreases width
  {
    if width > 0 {
      var shorter, bit := if length < width then length else width - 1, length == width;
      var half := Mask(width - 1, shorter);
      MaskHasNoRise(width - 1, shorter);
      RunGrows(Bits(half, width - 1), shorter, bit);
      LastBit(half, bit, width);
      MaskFromShorter(width, length);
    }
  }

  lemma NextMask(n: nat, width: nat, k: nat)
    requires width > 0 && k < width && n / 2 == Mask(width - 1, k)
    requires n % 2 == 1 ==> k == width - 1
    ensures n == Mask(width, if n % 2 == 1 then width else k)
  {
    if n % 2 == 0 {
      MaskHalves(width, k);
    }
  }

  lemma {:induction false} NoRiseIsMask(n: nat, width: nat)
    requires n < Pow2(width) && !HasRise(Bits(n, width))
    ensures Ones(Bits(n, width)) <= width && n == Mask(width, Ones(Bits(n, width)))
    decreases width
  {
    if width > 0 {
      var front := Bits(n / 2, width - 1);
      RiseAtEnd(front, n % 2 == 1);
      NoRiseIsMask(n / 2, width - 1);
      if n % 2 == 1 && width > 1 {
        assert front[width - 2] == ((n / 2) % 2 == 1);
        OddMaskIsFull(width - 1, Ones(front));
      }
      NextMask(n, width, Ones(front));
    }
  }

  lemma ReadingIsMask(value: nat, width: nat, p: nat)
    requires value < Pow2(width)
    ensures Reading(value, width) == Some(p) <==> p <= width && value == Mask(width, p)
  {
    if !HasRise(Bits(value, width)) {
      NoRiseIsMask(value, width);
    }
    if p <= width && value == Mask(width, p) {
      MaskHasNoRise(width, p);
    }
  }

  /** A dotted mask is accepted exactly when its ones are contiguous from the top, or when it is
      the complement of such a mask with both ones and zeros; the prefix is the length of the run. */
  lemma NetmaskAccepted(packed: Word, p: nat)
    ensures NetmaskToPrefix(packed) == Some(p) <==>
            p <= 32 && (packed == Mask(32, p) || (0 < p < 32 && packed == ALL_ONES - Mask(32, p)))
  {
    WordIsFull();
    ReadingIsMask(packed, 32, p);
    ReadingIsMask(ALL_ONES - packed, 32, p);
    var direct := Reading(packed, 32);
    if direct.Some? {
      ReadingIsMask(packed, 32, direct.value);
      if 0 < p < 32 {
        WildcardIsNoMask(32, p, direct.value);
      }
    }
  }

  lemma WildcardIsNoMask(width: nat, p: nat, q: nat)
    requires 0 < p < width && q <= width
    ensures Mask(width, q) != Pow2(width) - 1 - Mask(width, p)
  {
    if Mask(width, q) == Pow2(width) - 1 - Mask(width, p) {
      MaskHalves(width, p);
      OddMaskIsFull(width, q);
      Pow2Grows(width - p, width);
    }
  }

  /** Printing a prefix as a mask and reading the mask back gives the prefix. */
  lemma MaskRoundTrip(p: nat)
    requires p <= 32
    ensures PrefixToNetmask(p).Some? && PrefixToNetmask(p).value <= ALL_ONES
    ensures NetmaskToPrefix(PrefixToNetmask(p).value) == Some(p)
  {
    WordIsFull();
    NetmaskAccepted(Mask(32, p), p);
  }

  // ---------- Single values ----------

  /** A reserved host address is reported, never corrected. */
  function HostBitIssues(spec: IPAddressSpec): (r: seq<IssueKind>)
    requires spec.prefixLength.Some?
    ensures InvalidMask !in r
  {
    var subnet := spec.Subnet().value;
    var reserves := spec.address.version.Width() - subnet.length > 1;
    (if reserves && spec.address.value == subnet.base then [NetworkAddressAssigned] else [])
    + (if reserves && spec.address.version.V4? && spec.address.value == subnet.Last() then [BroadcastAddressAssigned]
       else [])
  }

  predicate IsAddress(a: Address) {
    a.value < Pow2(a.version.Width())
  }

  datatype ParseResult = ParseResult(spec: Option<IPAddressSpec>, issues: seq<IssueKind>)

  /** `address/prefix`; either piece may fail to parse. */
  function ParseCidr(address: Option<Address>, prefix: Option<int>): (r: ParseResult)
    ensures r.spec.None? ==> r.issues != []
    ensures InvalidMask !in r.issues
    ensures r.spec.Some? <==>
            && address.Some? && IsAddress(address.value) && prefix.Some?
            && 0 <= prefix.value <= address.value.version.Width()
    ensures r.spec.Some? ==> r.spec.value == RawAddressSpec(address.value, Some(prefix.value))
  {
    if address.None? || !IsAddress(address.value) then ParseResult(None, [InvalidIp])
    else if prefix.None? || !(0 <= prefix.value <= address.value.version.Width()) then ParseResult(None, [InvalidPrefix])
    else
      var spec: IPAddressSpec := RawAddressSpec(address.value, Some(prefix.value));
      ParseResult(Some(spec), HostBitIssues(spec))
  }

  /** `address mask`; the mask is a packed IPv4 value when it parses. */
  function ParseIpAndMask(address: Option<Address>, mask: Option<Word>): (r: ParseResult)
    ensures r.spec.None? ==> r.issues != []
    ensures r.spec.Some? ==> InvalidMask !in r.issues
  {
    if address.None? || !IsAddress(address.value) then ParseResult(None, [InvalidIp])
    else
      var prefix := if mask.Some? then NetmaskToPrefix(mask.value) else None;
      if prefix.None? then ParseResult(None, [InvalidMask])
      else
        var spec: IPAddressSpec := RawAddressSpec(address.value, prefix);
        ParseResult(Some(spec), HostBitIssues(spec))
  }

  // ---------- What is read, in terms of numbers ----------

  /** The mask is that of the prefix, or its complement when it has both digits. */
  predicate IsMaskOf(mask: Option<Word>, prefix: nat) {
    && mask.Some? && prefix <= 32
    && (mask.value == Mask(32, prefix) || (0 < prefix < 32 && mask.value == ALL_ONES - Mask(32, prefix)))
  }

  /** `address mask` gives an address with a prefix exactly when the address is one and the mask is
      that of the prefix. */
  lemma ParseIpAndMaskIff(address: Option<Address>, mask: Option<Word>, a: Address, p: nat)
    requires IsAddress(a) && p <= a.version.Width()
    ensures ParseIpAndMask(address, mask).spec == Some(RawAddressSpec(a, Some(p))) <==>
            address == Some(a) && IsMaskOf(mask, p)
  {
    if mask.Some? {
      NetmaskAccepted(mask.value, p);
    }
  }

  /** The address has only zeros after its prefix, or only ones; neither counts on the two longest
      prefixes, and only IPv4 has a broadcast address. */
  predicate IsReservedHost(kind: IssueKind, a: Address, p: nat) {
    && p + 1 < a.version.Width()
    && var size := Pow2(a.version.Width() - p);
       || (kind == NetworkAddressAssigned && a.value % size == 0)
       || (kind == BroadcastAddressAssigned && a.version.V4? && a.value % size == size - 1)
  }

  lemma BlockOfAddress(base: nat, value: nat, size: nat)
    requires size > 0 && base % size == 0 && base <= value < base + size
    ensures value % size == value - base
  {
    QuotientUnique(value, size, base / size, value - base);
  }

  lemma HostBitsExactly(spec: IPAddressSpec, kind: IssueKind)
    requires spec.prefixLength.Some?
    ensures kind in HostBitIssues(spec) <==> IsReservedHost(kind, spec.address, spec.prefixLength.value)
    ensures forall i, j :: 0 <= i < j < |HostBitIssues(spec)| ==> HostBitIssues(spec)[i] != HostBitIssues(spec)[j]
  {
    var subnet := spec.Subnet().value;
    BaseIsMultiple(subnet);
    BlockOfAddress(subnet.base, spec.address.value, subnet.Size());
  }

  /** The address with the prefix that was written after it. */
  predicate IsCidrOf(address: Option<Address>, prefix: Option<int>, a: IPAddressSpec) {
    address == Some(a.address) && a.prefixLength.Some? && prefix == Some(a.prefixLength.value)
  }

  predicate IsMaskedOf(address: Option<Address>, mask: Option<Word>, a: IPAddressSpec) {
    address == Some(a.address) && a.prefixLength.Some? && IsMaskOf(mask, a.prefixLength.value)
  }

  /** The piece is no address of its family. */
  predicate IsNoAddress(address: Option<Address>) {
    address.None? || address.value.value >= Pow2(address.value.version.Width())
  }

  predicate CidrIssue(kind: IssueKind, address: Option<Address>, prefix: Option<int>) {
    if IsNoAddress(address) then kind == InvalidIp
    else if prefix.None? || prefix.value < 0 || prefix.value > address.value.version.Width() then kind == InvalidPrefix
    else IsReservedHost(kind, address.value, prefix.value)
  }

  lemma CidrExactly(address: Option<Address>, prefix: Option<int>, a: IPAddressSpec, kind: IssueKind)
    ensures ParseCidr(address, prefix).spec == Some(a) <==> IsCidrOf(address, prefix, a)
    ensures kind in ParseCidr(address, prefix).issues <==> CidrIssue(kind, address, prefix)
  {
    var parsed := ParseCidr(address, prefix);
    if parsed.spec.Some? {
      HostBitsExactly(parsed.spec.value, kind);
    }
  }

  // ---------- The four address passes ----------

  datatype CidrMatch = CidrMatch(span: Span, hasColon: bool, address: Option<Address>, prefix: Option<int>)
  datatype MaskMatch = MaskMatch(span: Span, address: Option<Address>, mask: Option<Word>)
  datatype BareMatch = BareMatch(span: Span, address: Option<Address>)

  /** A colon form that does not parse is reported, but its text is left to the later passes. */
  function ColonOutcome(m: CidrMatch): Match<IPAddressSpec> {
    var parsed := ParseCidr(m.address, m.prefix);
    Match(m.span, if m.hasColon then Some(Outcome(parsed.issues, parsed.spec.Some?, parsed.spec)) else None)
  }

  function DottedOutcome(m: CidrMatch): Match<IPAddressSpec> {
    var parsed := ParseCidr(m.address, m.prefix);
    Match(m.span, Some(Outcome(parsed.issues, true, parsed.spec)))
  }

  /** Two adjacent plain addresses are not a pair: an invalid mask is left to the next pass. */
  function MaskOutcome(m: MaskMatch): Match<IPAddressSpec> {
    var parsed := ParseIpAndMask(m.address, m.mask);
    Match(m.span,
          if parsed.spec.None? && InvalidMask in parsed.issues then None
          else Some(Outcome(parsed.issues, parsed.spec.Some?, parsed.spec)))
  }

  function BareOutcome(m: BareMatch): Match<IPAddressSpec> {
    if m.address.None? || !IsAddress(m.address.value) then Match(m.span, Some(Outcome([InvalidIp], true, None)))
    else
      var spec: IPAddressSpec := RawAddressSpec(m.address.value, None);
      Match(m.span, Some(Outcome([], true, Some(spec))))
  }

  /** With a colon, the match is read as `address/prefix`, reported for what is wrong with it, and
      claimed when an address comes of it; without one it is not looked at. */
  lemma ColonExactly(m: CidrMatch, a: IPAddressSpec, kind: IssueKind)
    ensures var o := ColonOutcome(m).outcome;
            && ColonOutcome(m).span == m.span && (o.Some? <==> m.hasColon)
            && (o.Some? ==>
                  && (o.value.accepted == Some(a) <==> IsCidrOf(m.address, m.prefix, a))
                  && (o.value.consumes <==> o.value.accepted.Some?)
                  && (kind in o.value.issues <==> CidrIssue(kind, m.address, m.prefix)))
  {
    CidrExactly(m.address, m.prefix, a, kind);
  }

  /** A dotted form is claimed whatever comes of it. */
  lemma DottedExactly(m: CidrMatch, a: IPAddressSpec, kind: IssueKind)
    ensures var o := DottedOutcome(m).outcome;
            && DottedOutcome(m).span == m.span && o.Some? && o.value.consumes
            && (o.value.accepted == Some(a) <==> IsCidrOf(m.address, m.prefix, a))
            && (kind in o.value.issues <==> CidrIssue(kind, m.address, m.prefix))
  {
    CidrExactly(m.address, m.prefix, a, kind);
  }

  lemma MaskKnown(mask: Option<Word>, p: nat)
    requires p <= 32
    ensures mask.Some? && NetmaskToPrefix(mask.value) == Some(p) <==> IsMaskOf(mask, p)
    ensures mask.Some? && NetmaskToPrefix(mask.value).Some? <==> exists q: nat :: IsMaskOf(mask, q)
  {
    if mask.Some? {
      NetmaskAccepted(mask.value, p);
      var q := NetmaskToPrefix(mask.value);
      if q.Some? {
        NetmaskAccepted(mask.value, q.value);
      }
      if q.Some? {
        assert IsMaskOf(mask, q.value);
      }
      forall q: nat | IsMaskOf(mask, q) ensures NetmaskToPrefix(mask.value) == Some(q) {
        NetmaskAccepted(mask.value, q);
      }
    }
  }

  /** A pair with a bad address is reported and left; one whose second half is no mask is left
      without a word; any other gives an address. */
  lemma MaskExactly(m: MaskMatch, a: IPAddressSpec, kind: IssueKind)
    ensures var o := MaskOutcome(m).outcome;
            && MaskOutcome(m).span == m.span
            && (o.None? <==> !IsNoAddress(m.address) && !exists q: nat :: IsMaskOf(m.mask, q))
            && (o.Some? ==>
                  && (o.value.accepted == Some(a) <==> IsMaskedOf(m.address, m.mask, a))
                  && (o.value.consumes <==> o.value.accepted.Some?)
                  && (kind in o.value.issues <==>
                        if IsNoAddress(m.address) then kind == InvalidIp
                        else exists q: nat | q <= 32 :: IsMaskOf(m.mask, q) && IsReservedHost(kind, m.address.value, q)))
  {
    var parsed := ParseIpAndMask(m.address, m.mask);
    if a.prefixLength.Some? && a.prefixLength.value <= 32 {
      MaskKnown(m.mask, a.prefixLength.value);
    }
    MaskKnown(m.mask, 0);
    if parsed.spec.Some? {
      var p := parsed.spec.value.prefixLength.value;
      MaskKnown(m.mask, p);
      HostBitsExactly(parsed.spec.value, kind);
      forall q: nat | IsMaskOf(m.mask, q) ensures q == p {
        MaskKnown(m.mask, q);
      }
    }
  }

  /** A bare address is claimed whatever comes of it, and has no prefix. */
  lemma BareExactly(m: BareMatch, a: IPAddressSpec, kind: IssueKind)
    ensures var o := BareOutcome(m).outcome;
            && BareOutcome(m).span == m.span && o.Some? && o.value.consumes
            && (o.value.accepted == Some(a) <==> m.address == Some(a.address) && a.prefixLength.None?)
            && (kind in o.value.issues <==> IsNoAddress(m.address) && kind == InvalidIp)
  {
  }

  predicate FirstFoundAt(addresses: seq<Found<IPAddressSpec>>, s: SubnetSpec, k: nat) {
    && k < |addresses| && addresses[k].value.Subnet() == Some(s)
    && forall j | 0 <= j < k :: addresses[j].value.Subnet() != Some(s)
  }

  /** Each subnet, and the place where it is first found. */
  predicate Located(addresses: seq<Found<IPAddressSpec>>, subnets: seq<SubnetSpec>, places: seq<nat>) {
    && |places| == |subnets|
    && (forall i | 0 <= i < |places| :: FirstFoundAt(addresses, subnets[i], places[i]))
    && (forall i, j | 0 <= i < j < |places| :: places[i] < places[j])
  }

  lemma LocatedMore(addresses: seq<Found<IPAddressSpec>>, subnets: seq<SubnetSpec>, places: seq<nat>, s: SubnetSpec, k: nat)
    requires Located(addresses, subnets, places) && FirstFoundAt(addresses, s, k)
    requires forall i | 0 <= i < |places| :: places[i] < k
    ensures Located(addresses, subnets + [s], places + [k])
  {
  }

  lemma LocatedInOrder(addresses: seq<Found<IPAddressSpec>>, subnets: seq<SubnetSpec>, places: seq<nat>)
    requires Located(addresses, subnets, places)
    ensures forall i, j, p, q | 0 <= i < j < |subnets| ::
              FirstFoundAt(addresses, subnets[i], p) && FirstFoundAt(addresses, subnets[j], q) ==> p < q
  {
    forall i, p | 0 <= i < |subnets| && FirstFoundAt(addresses, subnets[i], p) ensures p == places[i] {
    }
  }

  /** The distinct subnets of the addresses whose prefix is known, in order of appearance. */
  method DeriveSubnets(addresses: seq<Found<IPAddressSpec>>) returns (subnets: seq<SubnetSpec>)
    ensures forall i, j :: 0 <= i < j < |subnets| ==> subnets[i] != subnets[j]
    ensures forall s :: s in subnets <==> exists a <- addresses :: a.value.Subnet() == Some(s)
    ensures forall i, j, p, q | 0 <= i < j < |subnets| ::
              FirstFoundAt(addresses, subnets[i], p) && FirstFoundAt(addresses, subnets[j], q) ==> p < q
  {
    subnets := [];
    ghost var places: seq<nat> := [];
    for k := 0 to |addresses|
      invariant forall i, j :: 0 <= i < j < |subnets| ==> subnets[i] != subnets[j]
      invariant forall s :: s in subnets <==> exists i | 0 <= i < k :: addresses[i].value.Subnet() == Some(s)
      invariant Located(addresses, subnets, places) && forall i | 0 <= i < |places| :: places[i] < k
    {
      var subnet := addresses[k].value.Subnet();
      if subnet.Some? && subnet.value !in subnets {
        LocatedMore(addresses, subnets, places, subnet.value, k);
        subnets := subnets + [subnet.value];
        places := places + [k];
      }
    }
    LocatedInOrder(addresses, subnets, places);
  }

  /** An address has a prefix exactly when one of the stronger forms gave it. */
  predicate HasOrigin(a: Found<IPAddressSpec>, six: seq<CidrMatch>, four: seq<CidrMatch>, masked: seq<MaskMatch>,
                      bare: seq<BareMatch>) {
    if a.value.prefixLength.None? then exists m <- bare :: m.span == a.span && m.address == Some(a.value.address)
    else
      || (exists m <- six :: m.hasColon && m.span == a.span && IsCidrOf(m.address, m.prefix, a.value))
      || (exists m <- four :: m.span == a.span && IsCidrOf(m.address, m.prefix, a.value))
      || (exists m <- masked :: m.span == a.span && IsMaskedOf(m.address, m.mask, a.value))
  }

  lemma OriginOf(a: Found<IPAddressSpec>, six: seq<CidrMatch>, four: seq<CidrMatch>, masked: seq<MaskMatch>,
                 bare: seq<BareMatch>)
    requires || IsAccepted(a, Each(six, ColonOutcome)) || IsAccepted(a, Each(four, DottedOutcome))
             || IsAccepted(a, Each(masked, MaskOutcome)) || IsAccepted(a, Each(bare, BareOutcome))
    ensures HasOrigin(a, six, four, masked, bare)
  {
    if IsAccepted(a, Each(six, ColonOutcome)) {
      var m := AcceptedBy(a, ColonOutcome, six);
      ColonExactly(m, a.value, InvalidIp);
    } else if IsAccepted(a, Each(four, DottedOutcome)) {
      var m := AcceptedBy(a, DottedOutcome, four);
      DottedExactly(m, a.value, InvalidIp);
    } else if IsAccepted(a, Each(masked, MaskOutcome)) {
      var m := AcceptedBy(a, MaskOutcome, masked);
      MaskExactly(m, a.value, InvalidIp);
    } else {
      var m := AcceptedBy(a, BareOutcome, bare);
      BareExactly(m, a.value, InvalidIp);
    }
  }

  lemma AcceptedBy<M>(a: Found<IPAddressSpec>, f: M -> Match<IPAddressSpec>, matches: seq<M>) returns (m: M)
    requires IsAccepted(a, Each(matches, f))
    ensures m in matches && f(m).span == a.span
    ensures f(m).outcome.Some? && f(m).outcome.value.accepted == Some(a.value)
  {
    var all := Each(matches, f);
    var i :| 0 <= i < |all| && all[i].span == a.span && all[i].outcome.Some?
             && all[i].outcome.value.accepted == Some(a.value);
    m := matches[i];
  }

  /** No form reports a mask that is not contiguous. */
  lemma MaskNeverReported(i: Issue, six: seq<CidrMatch>, four: seq<CidrMatch>, masked: seq<MaskMatch>,
                          bare: seq<BareMatch>)
    requires || IsReported(i, Each(six, ColonOutcome)) || IsReported(i, Each(four, DottedOutcome))
             || IsReported(i, Each(masked, MaskOutcome)) || IsReported(i, Each(bare, BareOutcome))
    ensures i.kind != InvalidMask
  {
  }

  lemma ClaimsItsSpan<M>(scan: Scan<IPAddressSpec>, f: M -> Match<IPAddressSpec>, matches: seq<M>, k: nat)
    requires k < |matches| && AllSettled(Each(matches, f), |matches|, scan)
    requires f(matches[k]).outcome.Some? && f(matches[k]).outcome.value.consumes
    ensures scan.Covers(f(matches[k]).span)
  {
    assert IsSettled(Each(matches, f)[k], scan);
  }

  /** The four passes, each as what it makes of its matches. */
  method Passes(six: seq<Match<IPAddressSpec>>, four: seq<Match<IPAddressSpec>>, masked: seq<Match<IPAddressSpec>>,
                bare: seq<Match<IPAddressSpec>>) returns (scan: Scan<IPAddressSpec>)
    requires AllValid(six) && AllValid(four) && AllValid(masked) && AllValid(bare)
    ensures Sound(scan)
    ensures scan == Sweep(Sweep(Sweep(Sweep(Scan([], [], []), six), four), masked), bare)
    ensures AllSettled(six, |six|, scan) && AllSettled(four, |four|, scan)
    ensures AllSettled(masked, |masked|, scan) && AllSettled(bare, |bare|, scan)
    ensures forall a <- scan.found ::
              IsAccepted(a, six) || IsAccepted(a, four) || IsAccepted(a, masked) || IsAccepted(a, bare)
    ensures forall i <- scan.issues ::
              IsReported(i, six) || IsReported(i, four) || IsReported(i, masked) || IsReported(i, bare)
  {
    var first := Pass(Scan([], [], []), six);
    var second := Pass(first, four);
    var third := Pass(second, masked);
    scan := Pass(third, bare);
    AllStaySettled(six, scan, first);
    AllStaySettled(four, scan, second);
    AllStaySettled(masked, scan, third);
  }

  lemma AllStaySettled(matches: seq<Match<IPAddressSpec>>, after: Scan<IPAddressSpec>, before: Scan<IPAddressSpec>)
    requires Extends(after, before) && AllSettled(matches, |matches|, before)
    ensures AllSettled(matches, |matches|, after)
  {
    forall i | 0 <= i < |matches| ensures IsSettled(matches[i], after) {
      SettledStays(matches[i], after, before);
    }
  }

  /**
   The passes in order of precedence. No two claimed spans overlap, every accepted address has
   its own, each claimed span accounts for itself by an address or an issue, and every dotted
   quad of the text overlaps one: none is dropped in silence.
   */
  method ParseNetworkText(six: seq<CidrMatch>, four: seq<CidrMatch>, masked: seq<MaskMatch>, bare: seq<BareMatch>)
    returns (scan: Scan<IPAddressSpec>, subnets: seq<SubnetSpec>)
    ensures Sound(scan)
    ensures scan == Sweep(Sweep(Sweep(Sweep(Scan([], [], []), Each(six, ColonOutcome)), Each(four, DottedOutcome)),
                                Each(masked, MaskOutcome)), Each(bare, BareOutcome))
    ensures forall m <- bare :: scan.Covers(m.span)
    ensures forall m <- four :: scan.Covers(m.span)
    ensures AllSettled(Each(six, ColonOutcome), |six|, scan) && AllSettled(Each(masked, MaskOutcome), |masked|, scan)
    ensures forall a <- scan.found :: HasOrigin(a, six, four, masked, bare)
    ensures forall i <- scan.issues :: i.kind != InvalidMask
    ensures forall i, j :: 0 <= i < j < |subnets| ==> subnets[i] != subnets[j]
    ensures forall s :: s in subnets <==> exists a <- scan.found :: a.value.Subnet() == Some(s)
  {
    scan := Passes(Each(six, ColonOutcome), Each(four, DottedOutcome), Each(masked, MaskOutcome), Each(bare, BareOutcome));
    forall k | 0 <= k < |four| ensures scan.Covers(four[k].span) {
      ClaimsItsSpan(scan, DottedOutcome, four, k);
    }
    forall k | 0 <= k < |bare| ensures scan.Covers(bare[k].span) {
      ClaimsItsSpan(scan, BareOutcome, bare, k);
    }
    forall a <- scan.found ensures HasOrigin(a, six, four, masked, bare) {
      OriginOf(a, six, four, masked, bare);
    }
    forall i <- scan.issues ensures i.kind != InvalidMask {
      MaskNeverReported(i, six, four, masked, bare);
    }
    subnets := DeriveSubnets(scan.found);
  }
}
