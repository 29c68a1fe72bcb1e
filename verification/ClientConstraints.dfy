/** Client allowlists (src/access/client-constraints-match.ts). Masks are written arithmetically:
    keeping the top bits of a 32-bit address is dropping its remainder modulo a power of two. */
module ClientConstraints {
  import opened Options
  import opened DecimalStrings
  import opened BranchGlob
  import opened Text

  datatype Constraints = Constraints(allowedIpCidrs: Option<seq<string>>, allowedClientIds: Option<seq<string>>)

  datatype Client = Client(ip: Option<string>, clientId: Option<string>)

  // ----- addresses

  function Octet(part: string): Option<nat> {
    if 1 <= |part| <= 3 && AllDigits(part) && StringToNat(part) <= 255 then Some(StringToNat(part)) else None
  }

  /** The value of the first `n` parts, or none if one of them is no octet. */
  function PartsValue(parts: seq<string>, n: nat): Option<nat>
    requires n <= |parts|
  {
    if n == 0 then Some(0)
    else
      var front, last := PartsValue(parts, n - 1), Octet(parts[n - 1]);
      if front.None? || last.None? then None else Some(256 * front.value + last.value)
  }

  function AddressOf(ip: string): Option<nat> {
    var parts := Split(ip, '.');
    if |parts| != 4 then None else PartsValue(parts, 4)
  }

  lemma {:induction false} PartsValueBound(parts: seq<string>, n: nat)
    requires n <= |parts|
    ensures PartsValue(parts, n).Some? ==> PartsValue(parts, n).value < Pow2(8 * n)
  {
    if n == 0 {
      assert Pow2(0) == 1;
    } else {
      PartsValueBound(parts, n - 1);
      Pow2Step8(8 * (n - 1));
    }
  }

  function Pow2(n: nat): (r: nat)
    ensures r > 0
  {
    if n == 0 then 1 else 2 * Pow2(n - 1)
  }

  lemma Pow2Step8(n: nat)
    ensures Pow2(n + 8) == 256 * Pow2(n)
  {
    assert Pow2(n + 8) == 2 * Pow2(n + 7) == 4 * Pow2(n + 6) == 8 * Pow2(n + 5) == 16 * Pow2(n + 4);
    assert Pow2(n + 4) == 2 * Pow2(n + 3) == 4 * Pow2(n + 2) == 8 * Pow2(n + 1) == 16 * Pow2(n);
  }

  /** `ipv4ToInt`: the loop that accumulates four octets into one 32-bit number. */
  method Ipv4ToInt(ip: string) returns (address: Option<nat>)
    ensures address == AddressOf(ip)
    ensures address.Some? ==> address.value < 0x1_0000_0000
  {
    var parts := Split(ip, '.');
    if |parts| != 4 { return None; }
    var value := 0;
    for i := 0 to 4
      invariant PartsValue(parts, i) == Some(value)
    {
      var octet := Octet(parts[i]);
      if octet.None? {
        StaysNone(parts, i + 1, 4);
        return None;
      }
      value := 256 * value + octet.value;
    }
    PartsValueBound(parts, 4);
    assert Pow2(32) == 0x1_0000_0000 by {
      assert Pow2(0) == 1;
      Pow2Step8(0); Pow2Step8(8); Pow2Step8(16); Pow2Step8(24);
    }
    address := Some(value);
  }

  lemma {:induction false} StaysNone(parts: seq<string>, i: nat, n: nat)
    requires i <= n <= |parts| && PartsValue(parts, i).None?
    ensures PartsValue(parts, n).None?
    decreases n
  {
    if i < n { StaysNone(parts, i, n - 1); }
  }

  function LeadingDigits(s: string): (r: string)
    ensures AllDigits(r)
  {
    if s == "" || !IsDigit(s[0]) then "" else [s[0]] + LeadingDigits(s[1..])
  }

  /** `parseInt`, as far as a prefix length is accepted: leading white space and one sign are read
      over, the leading digits count, whatever follows them. No digits, a negative number and one
      over 32 are refused; a minus sign before zeros only is length zero. */
  function PrefixLength(s: string): Option<nat> {
    var t := TrimStart(s);
    var signed := t != "" && (t[0] == '+' || t[0] == '-');
    var digits := LeadingDigits(if signed then t[1..] else t);
    if digits == "" then None
    else
      var length := StringToNat(digits);
      if length > 32 || (t[0] == '-' && length > 0) then None else Some(length)
  }

  /** The address without its remainder modulo the block size. */
  function ClearLow(address: nat, size: nat): nat
    requires size > 0
  {
    size * (address / size)
  }

  /** The top `bits` bits of a 32-bit address. */
  function Masked(address: nat, bits: nat): nat
    requires bits <= 32
  {
    ClearLow(address, Pow2(32 - bits))
  }

  predicate MatchesIpPattern(clientIp: string, pattern: string) {
    var slash := IndexOf(pattern, '/');
    if slash.None? then clientIp == pattern
    else
      var base, client := AddressOf(pattern[..slash.value]), AddressOf(clientIp);
      var bits := PrefixLength(pattern[slash.value + 1..]);
      base.Some? && client.Some? && bits.Some?
      && (bits.value == 0 || Masked(base.value, bits.value) == Masked(client.value, bits.value))
  }

  /** A CIDR pattern admits exactly the addresses of its block: those from the base with its low
      bits cleared up to the block size. */
  lemma CidrIsABlock(clientIp: string, pattern: string)
    requires IndexOf(pattern, '/').Some?
    ensures var slash := IndexOf(pattern, '/').value;
            var base, client := AddressOf(pattern[..slash]), AddressOf(clientIp);
            var bits := PrefixLength(pattern[slash + 1..]);
            MatchesIpPattern(clientIp, pattern) <==>
              base.Some? && client.Some? && bits.Some?
              && (bits.value == 0 || Masked(base.value, bits.value) <= client.value < Masked(base.value, bits.value) + Pow2(32 - bits.value))
  {
    var slash := IndexOf(pattern, '/').value;
    var base, client := AddressOf(pattern[..slash]), AddressOf(clientIp);
    var bits := PrefixLength(pattern[slash + 1..]);
    if base.Some? && client.Some? && bits.Some? {
      SameBlock(base.value, client.value, Pow2(32 - bits.value));
    }
  }

  lemma SameBlock(a: nat, b: nat, size: nat)
    requires size > 0
    ensures ClearLow(a, size) == ClearLow(b, size) <==> ClearLow(a, size) <= b < ClearLow(a, size) + size
  {
    var q, r := a / size, b / size;
    assert size * r <= b < size * r + size;
    if q < r { MulMonotone(size, q + 1, r); }
    if r < q { MulMonotone(size, r + 1, q); }
  }

  lemma MulMonotone(size: nat, a: nat, b: nat)
    requires a <= b
    ensures size * a <= size * b
  {}

  /** A prefix length of zero admits every address, also written with a minus sign. */
  lemma SignedZeroAdmitsAll(base: string, clientIp: string)
    requires AddressOf(base).Some? && AddressOf(clientIp).Some? && '/' !in base
    ensures MatchesIpPattern(clientIp, base + "/-0")
  {
    var pattern := base + "/-0";
    assert pattern[|base|] == '/';
    assert IndexOf(pattern, '/') == Some(|base|);
    assert pattern[..|base|] == base && pattern[|base| + 1..] == "-0";
    assert "-0"[1..] == "0" && "0"[1..] == "" && "0"[..0] == "";
    assert LeadingDigits("0") == ['0'] + LeadingDigits("");
    assert StringToNat("0") == 10 * StringToNat("") + DigitValue('0');
  }

  // ----- allowlists

  predicate IpAllowed(ip: Option<string>, patterns: seq<string>) {
    ip.Some? && exists p :: p in patterns && MatchesIpPattern(ip.value, p)
  }

  /** `checkClientConstraints`, as whether there is no violation. */
  predicate ClientAllowed(client: Client, constraints: Option<Constraints>) {
    constraints.None? ||
    (var c := constraints.value;
     && (c.allowedIpCidrs.None? || c.allowedIpCidrs.value == [] || IpAllowed(client.ip, c.allowedIpCidrs.value))
     && (c.allowedClientIds.None? || c.allowedClientIds.value == []
         || (client.clientId.Some? && client.clientId.value in c.allowedClientIds.value)))
  }
}
