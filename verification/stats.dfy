/**
 * The string and bit helpers of the statistics collector: the trailing
 * whitespace trim applied to every command's output, the last octet of the
 * IPv4 address, the "0x" guard on the throttle reading and the throttle flag
 * derived from it, and the clamp of the CPU percentage. The commands
 * themselves (`popen`, `/proc`, `vcgencmd`) are not modelled; their output
 * strings are inputs here.
 */
module Stats {

  datatype Option<T> = None | Some(value: T)

  // ---------------------------------------------------------------------
  // Trimming command output.

  /** The characters `runCmd` strips from the end of its output. */
  predicate IsTrimmable(c: char) {
    c == '\n' || c == '\r' || c == ' '
  }

  /**
   * `r` is `s` with its trailing run of trimmable characters removed: a
   * prefix of `s` that does not end in a trimmable character, every removed
   * character being trimmable.
   */
  predicate TrimOf(s: string, r: string) {
    && |r| <= |s|
    && r == s[..|r|]
    && (r != [] ==> !IsTrimmable(r[|r| - 1]))
    && (forall i :: |r| <= i < |s| ==> IsTrimmable(s[i]))
  }

  /** `while (!out.empty() && trimmable(out.back())) out.pop_back();` */
  function Trim(s: string): (r: string)
    ensures TrimOf(s, r)
    decreases |s|
  {
    if s != [] && IsTrimmable(s[|s| - 1]) then Trim(s[..|s| - 1]) else s
  }

  /** The last character a trim keeps is not trimmable. */
  lemma TrimKeepsLast(s: string, r: string)
    requires TrimOf(s, r) && r != []
    ensures !IsTrimmable(s[|r| - 1])
  {
    assert r[|r| - 1] == s[|r| - 1];
  }

  /** The trim is determined by its specification: at most one string is a trim of `s`. */
  lemma TrimUnique(s: string, r1: string, r2: string)
    requires TrimOf(s, r1) && TrimOf(s, r2)
    ensures r1 == r2
  {
    if r1 != [] {
      TrimKeepsLast(s, r1);
    }
    if r2 != [] {
      TrimKeepsLast(s, r2);
    }
  }

  /** Trimming an already trimmed output changes nothing. */
  lemma TrimIdempotent(s: string)
    ensures Trim(Trim(s)) == Trim(s)
  {
    var r := Trim(s);
    TrimUnique(r, Trim(r), r);
  }

  /** Text followed by trailing blanks and line ends trims back to the text. */
  lemma TrimDropsTrailer(text: string, trailer: string)
    requires text == [] || !IsTrimmable(text[|text| - 1])
    requires forall i :: 0 <= i < |trailer| ==> IsTrimmable(trailer[i])
    ensures Trim(text + trailer) == text
  {
    var s := text + trailer;
    assert s[..|text|] == text;
    forall i | |text| <= i < |s|
      ensures IsTrimmable(s[i])
    {
      assert s[i] == trailer[i - |text|];
    }
    TrimUnique(s, Trim(s), text);
  }

  // ---------------------------------------------------------------------
  // The last octet of the address.

  /** `find_last_of('.')`: the position of the last '.' in `s`, if any. */
  function LastDot(s: string): (r: Option<nat>)
    ensures r.None? ==> forall i :: 0 <= i < |s| ==> s[i] != '.'
    ensures r.Some? ==> r.value < |s| && s[r.value] == '.' && forall i :: r.value < i < |s| ==> s[i] != '.'
    decreases |s|
  {
    if s == [] then None
    else if s[|s| - 1] == '.' then Some(|s| - 1)
    else LastDot(s[..|s| - 1])
  }

  /**
   * `readIpLastOctet` after the command: "0" for an empty address, the
   * address itself when it has no '.', else everything after its last '.'.
   */
  function LastOctet(ip: string): (r: string)
    ensures ip == [] ==> r == "0"
    ensures ip != [] && (forall i :: 0 <= i < |ip| ==> ip[i] != '.') ==> r == ip
    ensures (exists i :: 0 <= i < |ip| && ip[i] == '.') ==>
              && |r| < |ip|
              && ip == ip[..|ip| - |r| - 1] + "." + r
              && (forall i :: 0 <= i < |r| ==> r[i] != '.')
  {
    if ip == [] then "0"
    else match LastDot(ip)
      case None => ip
      case Some(p) =>
        assert ip == ip[..p] + "." + ip[p + 1..];
        ip[p + 1..]
  }

  /** Whatever precedes the last '.', the octet after it is what comes back. */
  lemma LastOctetOfDotted(prefix: string, octet: string)
    requires forall i :: 0 <= i < |octet| ==> octet[i] != '.'
    ensures LastOctet(prefix + "." + octet) == octet
  {
    var ip := prefix + "." + octet;
    assert ip[|prefix|] == '.';
    forall i | |prefix| < i < |ip|
      ensures ip[i] != '.'
    {
      assert ip[i] == octet[i - |prefix| - 1];
    }
    assert LastDot(ip) == Some(|prefix|);
    assert ip[|prefix| + 1..] == octet;
  }

  // ---------------------------------------------------------------------
  // The throttle reading.

  /** `t.rfind("0x", 0) == 0`: the reading starts with "0x". */
  predicate HasHexPrefix(t: string) {
    |t| >= 2 && t[0] == '0' && t[1] == 'x'
  }

  /**
   * `readThrottleRaw` after the command: 0 for an empty reading or one that
   * does not start with "0x"; otherwise the value the hexadecimal stream
   * extraction `hexParse` reads from it.
   */
  function ThrottleRaw(t: string, hexParse: string -> bv32): (raw: bv32)
    ensures !HasHexPrefix(t) ==> raw == 0
    ensures HasHexPrefix(t) ==> raw == hexParse(t)
  {
    if t == [] then 0
    else if HasHexPrefix(t) then hexParse(t)
    else 0
  }

  /** `(throttle_raw & 0xF) != 0`: any of bits 0..3 (under-voltage, frequency capped, throttled, soft temperature limit). */
  predicate Throttled(raw: bv32) {
    raw & 0xF != 0
  }

  /** The flag is set exactly when one of the four low bits is. */
  lemma ThrottledLowBits(raw: bv32)
    ensures Throttled(raw) <==> raw & 1 != 0 || raw & 2 != 0 || raw & 4 != 0 || raw & 8 != 0
  {
  }

  /** Bits 4 and above never affect the flag. */
  lemma ThrottledIgnoresHighBits(raw: bv32, high: bv32)
    ensures Throttled(raw) == Throttled((raw & 0xF) | (high & 0xFFFF_FFF0))
  {
  }

  /** Under-voltage now (bit 0) raises the flag; under-voltage since boot alone (bit 4) does not. */
  lemma ThrottledExamples()
    ensures Throttled(0x1) && !Throttled(0x10)
  {
  }

  /** A reading without the "0x" prefix never raises the flag. */
  lemma UnprefixedNotThrottled(t: string, hexParse: string -> bv32)
    requires !HasHexPrefix(t)
    ensures !Throttled(ThrottleRaw(t, hexParse))
  {
  }

  // ---------------------------------------------------------------------
  // The CPU percentage.

  /** C++'s conversion of a double to int: truncation toward zero. */
  function TruncToInt(v: real): (n: int)
    ensures v >= 0.0 ==> n as real <= v < n as real + 1.0
    ensures v < 0.0 ==> n as real - 1.0 < v <= n as real
  {
    if v >= 0.0 then v.Floor else -((-v).Floor)
  }

  /**
   * `readCpuPercent` from the two counter deltas, the double arithmetic taken
   * as exact: 0 when no time passed, otherwise
   * `(int)(100.0 * (total - idle) / total + 0.5)` clamped to 0..100.
   */
  function CpuPercent(idleDelta: int, totalDelta: int): (cpu: int)
    ensures 0 <= cpu <= 100
    ensures totalDelta <= 0 ==> cpu == 0
  {
    if totalDelta <= 0 then 0
    else
      var cpu := TruncToInt(100.0 * (totalDelta - idleDelta) as real / totalDelta as real + 0.5);
      if cpu < 0 then 0 else if cpu > 100 then 100 else cpu
  }

  /** The busy share of the interval, in percent. */
  function BusyShare(idleDelta: int, totalDelta: int): real
    requires totalDelta > 0
  {
    100.0 * (totalDelta - idleDelta) as real / totalDelta as real
  }

  /**
   * When the idle time lies within the interval, the result is the busy
   * share rounded to the nearest percent, halves rounded up.
   */
  lemma CpuPercentRounds(idleDelta: int, totalDelta: int)
    requires 0 <= idleDelta <= totalDelta && totalDelta > 0
    ensures var cpu := CpuPercent(idleDelta, totalDelta);
            cpu as real - 0.5 <= BusyShare(idleDelta, totalDelta) < cpu as real + 0.5
  {
    var share := BusyShare(idleDelta, totalDelta);
    ShareBounds(idleDelta, totalDelta);
    var n := TruncToInt(share + 0.5);
    assert 0 <= n <= 100 by {
      assert n as real <= share + 0.5 < n as real + 1.0;
    }
  }

  lemma ShareBounds(idleDelta: int, totalDelta: int)
    requires 0 <= idleDelta <= totalDelta && totalDelta > 0
    ensures 0.0 <= BusyShare(idleDelta, totalDelta) <= 100.0
  {
    var busy := (totalDelta - idleDelta) as real;
    var total := totalDelta as real;
    var share := BusyShare(idleDelta, totalDelta);
    assert share * total == 100.0 * busy;
    if share < 0.0 {
      NegativeTimesPositive(share, total);
    } else if share > 100.0 {
      ScaledAbove(share, 100.0, total);
    }
  }

  lemma NegativeTimesPositive(a: real, b: real)
    requires a < 0.0 && b > 0.0
    ensures a * b < 0.0
  {
  }

  lemma ScaledAbove(a: real, c: real, b: real)
    requires a > c && b > 0.0
    ensures a * b > c * b
  {
  }
}
