/** What the client allowlists admit (src/access/client-constraints-match.ts), in terms of the texts of
    addresses and patterns. */
module ClientMatching {
  import opened Options
  import opened DecimalStrings
  import opened BranchGlob
  import opened Text
  import opened ClientConstraints

  // ----- addresses

  /** One to three digits that denote a number up to 255. */
  ghost predicate IsOctet(part: string, value: nat) {
    1 <= |part| <= 3 && AllDigits(part) && value <= 255 && StringToNat(part) == value
  }

  /** The text is four such parts with points between, and the address their number. */
  ghost predicate Dotted(ip: string, address: nat, parts: seq<string>, values: seq<nat>) {
    && |parts| == |values| == 4 && (forall i :: 0 <= i < 4 ==> IsOctet(parts[i], values[i]))
    && ip == parts[0] + "." + parts[1] + "." + parts[2] + "." + parts[3]
    && address == 0x100_0000 * values[0] + 0x1_0000 * values[1] + 0x100 * values[2] + values[3]
  }

  ghost predicate IsAddress(ip: string, address: nat) {
    exists parts, values :: Dotted(ip, address, parts, values)
  }

  lemma FourJoined(parts: seq<string>)
    requires |parts| == 4
    ensures Join(parts, '.') == parts[0] + "." + parts[1] + "." + parts[2] + "." + parts[3]
  {
    var three, two := parts[..3], parts[..3][..2];
    assert Join(two[..1], '.') == parts[0];
    assert Join(two, '.') == parts[0] + ['.'] + parts[1];
    assert Join(three, '.') == Join(two, '.') + ['.'] + parts[2];
  }

  lemma FourValues(parts: seq<string>)
    requires |parts| == 4
    ensures PartsValue(parts, 4)
              == if Octet(parts[0]).None? || Octet(parts[1]).None? || Octet(parts[2]).None? || Octet(parts[3]).None? then None
                 else Some(0x100_0000 * Octet(parts[0]).value + 0x1_0000 * Octet(parts[1]).value
                           + 0x100 * Octet(parts[2]).value + Octet(parts[3]).value)
  {
    var v1, v2, v3 := PartsValue(parts, 1), PartsValue(parts, 2), PartsValue(parts, 3);
    assert PartsValue(parts, 0) == Some(0);
  }

  lemma AddressIsDotted(ip: string, address: nat)
    requires AddressOf(ip) == Some(address)
    ensures IsAddress(ip, address)
  {
    var parts := Split(ip, '.');
    JoinSplit(ip, '.');
    FourJoined(parts);
    FourValues(parts);
    var values: seq<nat> := [Octet(parts[0]).value, Octet(parts[1]).value, Octet(parts[2]).value, Octet(parts[3]).value];
    assert Dotted(ip, address, parts, values);
  }

  lemma DottedIsAddress(ip: string, address: nat, parts: seq<string>, values: seq<nat>)
    requires Dotted(ip, address, parts, values)
    ensures AddressOf(ip) == Some(address)
  {
    FourPieces(parts);
    FourValues(parts);
    assert forall i :: 0 <= i < 4 ==> Octet(parts[i]) == Some(values[i]);
  }

  lemma FourPieces(parts: seq<string>)
    requires |parts| == 4 && forall i :: 0 <= i < 4 ==> AllDigits(parts[i])
    ensures Split(parts[0] + "." + parts[1] + "." + parts[2] + "." + parts[3], '.') == parts
  {
    forall i | 0 <= i < 4
      ensures '.' !in parts[i]
    {
      NoPoint(parts[i]);
    }
    FourJoined(parts);
    SplitIsExact(Join(parts, '.'), parts, '.');
  }

  lemma NoPoint(s: string)
    requires AllDigits(s)
    ensures '.' !in s && '/' !in s
  {}

  /** Reading an address succeeds exactly on dotted texts, with their number. */
  lemma AddressIsExact(ip: string, address: nat)
    ensures AddressOf(ip) == Some(address) <==> IsAddress(ip, address)
  {
    if AddressOf(ip) == Some(address) { AddressIsDotted(ip, address); }
    if parts, values :| Dotted(ip, address, parts, values) { DottedIsAddress(ip, address, parts, values); }
  }

  // ----- prefix lengths

  /** White space, at most one sign, digits, and anything that does not start with a digit. */
  ghost predicate Reads(s: string, lead: string, sign: string, digits: string, rest: string) {
    && s == lead + sign + digits + rest
    && (forall i :: 0 <= i < |lead| ==> IsSpace(lead[i]))
    && sign in {"", "+", "-"} && digits != "" && AllDigits(digits)
    && (rest == "" || !IsDigit(rest[0]))
  }

  /** The text reads as a length from 0 to 32; zero may carry a minus sign. */
  ghost predicate IsPrefix(s: string, length: nat) {
    exists lead, sign, digits, rest ::
      Reads(s, lead, sign, digits, rest) && StringToNat(digits) == length && length <= 32 && (sign == "-" ==> length == 0)
  }

  lemma {:induction false} TrimmedLead(s: string) returns (lead: string)
    ensures s == lead + TrimStart(s) && forall i :: 0 <= i < |lead| ==> IsSpace(lead[i])
  {
    lead := "";
    if s != "" && IsSpace(s[0]) {
      var more := TrimmedLead(s[1..]);
      lead := [s[0]] + more;
    }
  }

  lemma {:induction false} TrimLead(lead: string, t: string)
    requires (forall i :: 0 <= i < |lead| ==> IsSpace(lead[i])) && t != "" && !IsSpace(t[0])
    ensures TrimStart(lead + t) == t
  {
    if lead == "" {
      assert lead + t == t;
    } else {
      assert (lead + t)[1..] == lead[1..] + t;
      TrimLead(lead[1..], t);
    }
  }

  lemma {:induction false} DigitsLead(s: string) returns (rest: string)
    ensures s == LeadingDigits(s) + rest && (rest == "" || !IsDigit(rest[0]))
  {
    rest := s;
    if s != "" && IsDigit(s[0]) {
      rest := DigitsLead(s[1..]);
    }
  }

  lemma {:induction false} LeadOfDigits(digits: string, rest: string)
    requires AllDigits(digits) && (rest == "" || !IsDigit(rest[0]))
    ensures LeadingDigits(digits + rest) == digits
  {
    if digits == "" {
      assert digits + rest == rest;
    } else {
      assert (digits + rest)[1..] == digits[1..] + rest;
      LeadOfDigits(digits[1..], rest);
    }
  }

  lemma PrefixReads(s: string, length: nat)
    requires PrefixLength(s) == Some(length)
    ensures IsPrefix(s, length)
  {
    var t := TrimStart(s);
    var lead := TrimmedLead(s);
    var sign := if t[0] == '+' || t[0] == '-' then t[..1] else "";
    var rest := DigitsLead(t[|sign|..]);
    TrimmedReads(s, lead, t, sign, LeadingDigits(t[|sign|..]), rest);
  }

  lemma TrimmedReads(s: string, lead: string, t: string, sign: string, digits: string, rest: string)
    requires s == lead + t && (forall i :: 0 <= i < |lead| ==> IsSpace(lead[i]))
    requires t != "" && sign == (if t[0] == '+' || t[0] == '-' then t[..1] else "")
    requires t[|sign|..] == digits + rest && digits != "" && AllDigits(digits) && (rest == "" || !IsDigit(rest[0]))
    requires var length := StringToNat(digits); length <= 32 && (t[0] == '-' ==> length == 0)
    ensures IsPrefix(s, StringToNat(digits))
  {
    assert t == sign + t[|sign|..];
    FourParts(s, lead, t, sign, digits, rest);
    assert sign == "" || sign == [t[0]];
    assert Reads(s, lead, sign, digits, rest);
  }

  lemma FourParts(s: string, lead: string, t: string, sign: string, digits: string, rest: string)
    requires s == lead + t && t == sign + (digits + rest)
    ensures s == lead + sign + digits + rest
  {}

  lemma ReadIsPrefix(s: string, lead: string, sign: string, digits: string, rest: string)
    requires Reads(s, lead, sign, digits, rest)
    ensures var length := StringToNat(digits);
            PrefixLength(s) == if length <= 32 && (sign == "-" ==> length == 0) then Some(length) else None
  {
    var t := sign + digits + rest;
    assert s == lead + t;
    assert t[0] == if sign == "" then digits[0] else sign[0];
    TrimLead(lead, t);
    assert t[|sign|..] == digits + rest;
    LeadOfDigits(digits, rest);
  }

  /** Reading a prefix length succeeds exactly on such texts. */
  lemma PrefixIsExact(s: string, length: nat)
    ensures PrefixLength(s) == Some(length) <==> IsPrefix(s, length)
  {
    if PrefixLength(s) == Some(length) { PrefixReads(s, length); }
    if lead, sign, digits, rest :| Reads(s, lead, sign, digits, rest) && StringToNat(digits) == length
                                   && length <= 32 && (sign == "-" ==> length == 0) {
      ReadIsPrefix(s, lead, sign, digits, rest);
    }
  }

  // ----- patterns

  /** The two addresses agree in their first `length` bits. */
  ghost predicate SameNetwork(a: nat, b: nat, length: nat)
    requires length <= 32
  {
    a / Pow2(32 - length) == b / Pow2(32 - length)
  }

  /** A pattern without a slash admits its own text; one with a slash admits the addresses that share the
      network of its base. */
  ghost predicate PatternAdmits(pattern: string, ip: string) {
    if '/' !in pattern then ip == pattern
    else exists base, suffix, a: nat, b: nat, length: nat ::
      && pattern == base + "/" + suffix && '/' !in base
      && IsAddress(base, a) && IsAddress(ip, b) && IsPrefix(suffix, length) && length <= 32 && SameNetwork(a, b, length)
  }

  lemma SameBlockSameNetwork(a: nat, b: nat, size: nat)
    requires size > 0
    ensures ClearLow(a, size) == ClearLow(b, size) <==> a / size == b / size
  {
    SameFactor(size, a / size, b / size);
  }

  lemma SameFactor(size: nat, q: nat, r: nat)
    requires size > 0
    ensures size * q == size * r ==> q == r
  {
    if q < r { MulMonotone(size, q + 1, r); }
    if r < q { MulMonotone(size, r + 1, q); }
  }

  lemma AddressesAreShort(ip: string)
    ensures AddressOf(ip).Some? ==> AddressOf(ip).value / Pow2(32) == 0
  {
    var parts := Split(ip, '.');
    if |parts| == 4 && PartsValue(parts, 4).Some? {
      PartsValueBound(parts, 4);
      LessThanOne(PartsValue(parts, 4).value, Pow2(32));
    }
  }

  lemma LessThanOne(a: nat, n: nat)
    requires a < n
    ensures a / n == 0
  {}

  lemma SlashSplits(pattern: string, base: string, suffix: string)
    requires pattern == base + "/" + suffix && '/' !in base
    ensures IndexOf(pattern, '/') == Some(|base|) && pattern[..|base|] == base && pattern[|base| + 1..] == suffix
  {
    assert pattern == base + ['/'] + suffix;
    IndexOfFirst(base, '/', suffix);
  }

  lemma NetworkPattern(ip: string, pattern: string)
    requires '/' in pattern && MatchesIpPattern(ip, pattern)
    ensures PatternAdmits(pattern, ip)
  {
    var slash := IndexOf(pattern, '/').value;
    var base, suffix := pattern[..slash], pattern[slash + 1..];
    var a, b, length := AddressOf(base).value, AddressOf(ip).value, PrefixLength(suffix).value;
    NetworkIsShared(base, ip, length);
    assert pattern == base + "/" + suffix;
    AdmitsNetwork(ip, base, suffix, a, b, length);
  }

  lemma AdmitsNetwork(ip: string, base: string, suffix: string, a: nat, b: nat, length: nat)
    requires '/' !in base && AddressOf(base) == Some(a) && AddressOf(ip) == Some(b) && PrefixLength(suffix) == Some(length)
    requires length <= 32 && SameNetwork(a, b, length)
    ensures PatternAdmits(base + "/" + suffix, ip)
  {
    AddressIsExact(base, a);
    AddressIsExact(ip, b);
    PrefixIsExact(suffix, length);
    assert (base + "/" + suffix)[|base|] == '/';
  }

  lemma NetworkIsShared(base: string, ip: string, length: nat)
    requires AddressOf(base).Some? && AddressOf(ip).Some? && length <= 32
    requires length == 0 || Masked(AddressOf(base).value, length) == Masked(AddressOf(ip).value, length)
    ensures SameNetwork(AddressOf(base).value, AddressOf(ip).value, length)
  {
    AddressesAreShort(base);
    AddressesAreShort(ip);
    SameBlockSameNetwork(AddressOf(base).value, AddressOf(ip).value, Pow2(32 - length));
  }

  lemma PatternOfNetwork(ip: string, base: string, suffix: string, a: nat, b: nat, length: nat)
    requires '/' !in base && IsAddress(base, a) && IsAddress(ip, b) && IsPrefix(suffix, length)
    requires length <= 32 && SameNetwork(a, b, length)
    ensures MatchesIpPattern(ip, base + "/" + suffix)
  {
    SlashSplits(base + "/" + suffix, base, suffix);
    AddressIsExact(base, a);
    AddressIsExact(ip, b);
    PrefixIsExact(suffix, length);
    SameBlockSameNetwork(a, b, Pow2(32 - length));
  }

  /** Matching a pattern is being admitted by it. */
  lemma PatternIsExact(ip: string, pattern: string)
    ensures MatchesIpPattern(ip, pattern) <==> PatternAdmits(pattern, ip)
  {
    if '/' in pattern {
      if MatchesIpPattern(ip, pattern) { NetworkPattern(ip, pattern); }
      if base, suffix, a: nat, b: nat, length: nat :|
           && pattern == base + "/" + suffix && '/' !in base
           && IsAddress(base, a) && IsAddress(ip, b) && IsPrefix(suffix, length) && length <= 32 && SameNetwork(a, b, length) {
        PatternOfNetwork(ip, base, suffix, a, b, length);
      }
    }
  }

  // ----- clients

  ghost predicate Restricts(list: Option<seq<string>>) {
    list.Some? && |list.value| > 0
  }

  /** A client is refused exactly when a list that is not empty does not admit it: an address list every
      pattern of which fails, or that finds no address, or an id list without its id, or no id at all. */
  lemma RefusedClients(client: Client, constraints: Option<Constraints>)
    ensures !ClientAllowed(client, constraints) <==>
              constraints.Some? &&
              var ips, ids := constraints.value.allowedIpCidrs, constraints.value.allowedClientIds;
              || (Restricts(ips) && (client.ip == None || forall p :: p in ips.value ==> !PatternAdmits(p, client.ip.value)))
              || (Restricts(ids) && (client.clientId == None || client.clientId.value !in ids.value))
  {
    if constraints.Some? && constraints.value.allowedIpCidrs.Some? && client.ip.Some? {
      forall p | p in constraints.value.allowedIpCidrs.value
        ensures MatchesIpPattern(client.ip.value, p) <==> PatternAdmits(p, client.ip.value)
      {
        PatternIsExact(client.ip.value, p);
      }
    }
  }
}
