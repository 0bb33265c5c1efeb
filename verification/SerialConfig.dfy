/** The SET_SERIAL/GET_SERIAL payload: unit number and NUL-terminated device name
    (amiga/include/fujinet_nio_serial_config.h). */
module SerialConfig {
  import opened Bytes

  const NAME_MAX := 30
  const PAYLOAD_MIN := 4 + 1 + 1
  const PAYLOAD_MAX := 4 + NAME_MAX + 1

  datatype Code = Ok | Invalid | Io

  predicate GoodChar(c: byte) {
    32 < c < 127 && c != 0x3A /* : */ && c != 0x2F /* / */ && c != 0x5C /* \\ */
  }

  /** A device name, without its terminator. */
  ghost predicate ValidName(name: seq<byte>) {
    1 <= |name| <= NAME_MAX && forall i :: 0 <= i < |name| ==> GoodChar(name[i])
  }

  /** strlen: the position of the first NUL of a buffer that has one. */
  ghost function StrLen(s: seq<byte>): (n: nat)
    requires 0 in s
    ensures n < |s| && s[n] == 0 && forall i :: 0 <= i < n ==> s[i] != 0
  {
    if s[0] == 0 then 0 else 1 + StrLen(s[1..])
  }

  /** The payload of a configuration. */
  function Encoded(unit: u32, name: seq<byte>): seq<byte> { PutLe32(unit) + name + [0] }

  /** fujinet_nio_serial_name_ok: one scan, given up at the 31st character. */
  method NameOk(s: seq<byte>) returns (ok: bool)
    requires 0 in s
    ensures ok <==> ValidName(s[..StrLen(s)])
    // Printable ASCII without blanks, slashes and colons.
    ensures ok <==>
      && 1 <= StrLen(s) <= 30
      && forall i :: 0 <= i < StrLen(s) ==> 0x21 <= s[i] <= 0x7E && s[i] != 0x2F && s[i] != 0x3A && s[i] != 0x5C
  {
    ghost var n := StrLen(s);
    if s[0] == 0 { return false; }
    var i := 0;
    while s[i] != 0
      invariant i <= n && i <= NAME_MAX && forall j :: 0 <= j < i ==> GoodChar(s[j])
      decreases n - i
    {
      if i >= NAME_MAX { return false; }
      if !GoodChar(s[i]) {
        assert !GoodChar(s[..n][i]);
        return false;
      }
      i := i + 1;
    }
    assert i == n;
    ok := true;
  }

  /** fujinet_nio_serial_encode. */
  method Encode(out: array<byte>, unit: u32, name: seq<byte>) returns (r: Code, length: nat)
    requires 0 !in name
    modifies out
    ensures r == if !ValidName(name) then Invalid else if out.Length < |Encoded(unit, name)| then Io else Ok
    ensures r == Ok ==> length == |Encoded(unit, name)| && out[..length] == Encoded(unit, name)
    ensures r != Ok ==> out[..] == old(out[..])
    ensures r == Ok ==> out[length..] == old(out[length..])
  {
    length := 0;
    assert StrLen(name + [0]) == |name| && (name + [0])[..|name|] == name by {
      assert forall i :: 0 <= i < |name| ==> (name + [0])[i] == name[i] && name[i] in name;
    }
    var ok := NameOk(name + [0]);
    if !ok { return Invalid, 0; }
    var bytes := Encoded(unit, name);
    if out.Length < |bytes| { return Io, 0; }
    for i := 0 to |bytes|
      invariant forall j :: 0 <= j < i ==> out[j] == bytes[j]
      invariant forall j :: i <= j < out.Length ==> out[j] == old(out[j])
    {
      out[i] := bytes[i];
    }
    r, length := Ok, |bytes|;
  }

  /** fujinet_nio_serial_decode. Accepts exactly the encodings of valid names that
      fit the caller's buffer, and gives back what was encoded. */
  method Decode(in_: seq<byte>, nameCap: nat) returns (r: Code, unit: u32, name: seq<byte>)
    ensures r == Ok || r == Invalid
    ensures r == Ok ==> ValidName(name) && |name| < nameCap && in_ == Encoded(unit, name)
    ensures r == Invalid ==> forall u: u32, n: seq<byte> :: ValidName(n) && |n| < nameCap ==> in_ != Encoded(u, n)
  {
    unit, name := 0, [];
    if |in_| < PAYLOAD_MIN || |in_| > PAYLOAD_MAX { return Invalid, 0, []; }
    if in_[|in_| - 1] != 0 { return Invalid, 0, []; }
    var src := in_[4..];
    assert src[|src| - 1] == 0;
    var n := 0;
    while src[n] != 0
      invariant n < |src| && forall i :: 0 <= i < n ==> src[i] != 0
      decreases |src| - n
    {
      n := n + 1;
    }
    forall u: u32, m: seq<byte> | ValidName(m) && in_ == Encoded(u, m) ensures m == src[..n] && n == |in_| - 5 {
      EncodedParts(u, m);
      assert forall i :: 0 <= i < |m| ==> src[i] == m[i] && GoodChar(m[i]);
      assert src[|m|] == 0;
    }
    if n == 0 || n != |in_| - 5 || n >= nameCap { return Invalid, 0, []; }
    assert StrLen(src) == n;
    var ok := NameOk(src);
    if !ok { return Invalid, 0, []; }
    unit, name := Le32(in_[0], in_[1], in_[2], in_[3]), src[..n];
    Le32Injective(PutLe32(unit), in_[..4]);
    EncodedParts(unit, name);
    assert in_ == in_[..4] + src[..n] + [0];
    r := Ok;
  }

  lemma EncodedParts(unit: u32, name: seq<byte>)
    ensures |Encoded(unit, name)| == |name| + 5
    ensures Encoded(unit, name)[..4] == PutLe32(unit) && Encoded(unit, name)[4..] == name + [0]
  {
  }

  /** Some configuration has a payload of n bytes. */
  ghost predicate IsPayloadLength(n: nat) {
    exists unit: u32, name: seq<byte> :: ValidName(name) && |Encoded(unit, name)| == n
  }

  /** The lengths of payloads are exactly those from 6 to 35. */
  lemma PayloadLengths(n: nat)
    ensures IsPayloadLength(n) <==> PAYLOAD_MIN <= n <= PAYLOAD_MAX
  {
    if unit: u32, name: seq<byte> :| ValidName(name) && |Encoded(unit, name)| == n { EncodedParts(unit, name); }
    if PAYLOAD_MIN <= n <= PAYLOAD_MAX { HasPayload(0, NameOfLength(n - 5)); }
  }

  function NameOfLength(n: nat): (name: seq<byte>)
    requires 1 <= n <= NAME_MAX
    ensures ValidName(name) && |name| == n
  {
    seq(n, _ => 0x61)
  }

  lemma HasPayload(unit: u32, name: seq<byte>)
    requires ValidName(name)
    ensures IsPayloadLength(|name| + 5)
  {
    EncodedParts(unit, name);
  }

  /** Different configurations have different payloads. */
  lemma EncodedInjective(u: u32, m: seq<byte>, v: u32, n: seq<byte>)
    requires Encoded(u, m) == Encoded(v, n)
    ensures u == v && m == n
  {
    EncodedParts(u, m);
    EncodedParts(v, n);
    assert PutLe32(u) == PutLe32(v);
    assert (m + [0])[..|m|] == m && (n + [0])[..|n|] == n;
  }

  /** Round trip: decoding an encoding returns the configuration. */
  method DecodeEncoded(unit: u32, name: seq<byte>, nameCap: nat) returns (r: Code, u: u32, n: seq<byte>)
    requires ValidName(name) && |name| < nameCap
    ensures r == Ok && u == unit && n == name
  {
    r, u, n := Decode(Encoded(unit, name), nameCap);
    EncodedInjective(unit, name, u, n);
  }
}
