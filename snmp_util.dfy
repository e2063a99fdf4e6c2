/**
  Model of snmp/util.go: validation and comparison of dotted numeric SNMP
  object identifiers (OIDs) such as ".1.3.6.1.4.1.232", and the mapping of a
  protocol-version selector onto an SNMP version.

  Strings are `seq<char>`. Go measures and slices strings in bytes; every
  string that passes the OID check is ASCII, so on the inputs where the
  model slices, byte positions and character positions coincide.
*/
module SnmpUtil {

  datatype Option<T> = None | Some(value: T)

  /** What a call of a Go function does: return a value, or panic at run time
      (for the functions below, always a slice expression out of range). */
  datatype Go<T> = Returns(value: T) | Panics

  predicate IsDigit(c: char) {
    '0' <= c <= '9'
  }

  /** Character `i` (after the leading dot) may stand in an OID: a digit, or a
      dot that does not directly follow another dot. */
  predicate OidCharAt(s: string, i: int)
    requires 1 <= i < |s|
  {
    IsDigit(s[i]) || (s[i] == '.' && s[i - 1] != '.')
  }

  /** The shape of an OID: at least two characters, a leading dot, only digits
      and dots after it, no two adjacent dots, no trailing dot. */
  predicate WellFormedOid(s: string) {
    && |s| >= 2
    && s[0] == '.'
    && s[|s| - 1] != '.'
    && forall i :: 1 <= i < |s| ==> OidCharAt(s, i)
  }

  /** IsOid: a single pass over the characters after the leading dot that
      remembers the previous character and gives up at the first bad one. */
  method IsOid(oid: string) returns (ok: bool)
    ensures ok == WellFormedOid(oid)
  {
    if oid == "" || oid[..1] != "." || |oid| < 2 {
      return false;
    }
    var lastChar := oid[0];
    var i := 1;
    while i < |oid|
      invariant 1 <= i <= |oid|
      invariant lastChar == oid[i - 1]
      invariant forall k :: 1 <= k < i ==> OidCharAt(oid, k)
    {
      var c := oid[i];
      if c == '.' {
        if lastChar == '.' {
          assert !OidCharAt(oid, i);
          return false;
        }
      } else if !IsDigit(c) {
        assert !OidCharAt(oid, i);
        return false;
      }
      lastChar := c;
      i := i + 1;
    }
    if lastChar == '.' {
      return false;
    }
    return true;
  }

  /** Each way a string can fail the OID check. */
  lemma MalformedRejected(s: string, i: int)
    ensures |s| < 2 || s[0] != '.' ==> !WellFormedOid(s)
    ensures 1 <= i < |s| && s[i - 1] == '.' && s[i] == '.' ==> !WellFormedOid(s)
    ensures 1 <= i < |s| && s[i] != '.' && !IsDigit(s[i]) ==> !WellFormedOid(s)
    ensures s != [] && s[|s| - 1] == '.' ==> !WellFormedOid(s)
  {
    if 1 <= i < |s| && WellFormedOid(s) {
      assert OidCharAt(s, i);
    }
  }

  /** Concrete cases of the OID check and of the comparisons below. */
  lemma OidExamples()
    ensures WellFormedOid(".1.1") && !WellFormedOid("1.1")
    ensures !WellFormedOid(".1..1") && !WellFormedOid(".1.1.") && !WellFormedOid("..1")
    ensures IsOidPartOf(".1.3.6.1.1.5.1.1", ".1.3.6.1.1.5")
    ensures !IsOidPartOf(".1.3.6.1.1.50", ".1.3.6.1.1.5")
    ensures !IsOidPartOf(".1.10", ".1.1")
    ensures GetSubOid(".1.3.6.1.1.5.1.1", ".1.3.6.1.1.5") == "1.1"
  {
    MalformedRejected(".1..1", 3);
    MalformedRejected("..1", 1);
    assert WellFormedOid(".1.3.6.1.1.5.1.1") && WellFormedOid(".1.3.6.1.1.5");
    assert ".1.3.6.1.1.5.1.1"[..12] == ".1.3.6.1.1.5";
    assert ".1.3.6.1.1.50"[12] == '0';
    assert ".1.10"[4] == '0';
  }

  /** IsOidPartOf exactly as the source writes it: `oid[:lenBase]` panics when
      both arguments are OIDs and `oid` is the shorter one. */
  function IsOidPartOfAsWritten(oid: string, baseOid: string): (r: Go<bool>)
    ensures r.Panics? <==> WellFormedOid(oid) && WellFormedOid(baseOid) && |oid| < |baseOid|
    ensures r.Returns? ==> r.value == IsOidPartOf(oid, baseOid)
  {
    if !WellFormedOid(oid) || !WellFormedOid(baseOid) then Returns(false)
    else
      var lenBase := |baseOid|;
      if lenBase > |oid| then Panics
      else if oid[..lenBase] == baseOid then
        if |oid| == lenBase || oid[lenBase..lenBase + 1] == "." then Returns(true) else Returns(false)
      else Returns(false)
  }

  /** A shorter OID makes the source panic where "not part of" is meant. */
  lemma ShorterOidPanics()
    ensures IsOidPartOfAsWritten(".1", ".1.2") == Panics
    ensures !IsOidPartOf(".1", ".1.2")
  {
  }

  /** IsOidPartOf, corrected: `oid` is `baseOid` itself or lies below it, the
      match ending at a label boundary; a shorter `oid` is simply not part of it. */
  function IsOidPartOf(oid: string, baseOid: string): (r: bool)
    ensures r <==> WellFormedOid(oid) && WellFormedOid(baseOid) && (oid == baseOid || baseOid + "." <= oid)
  {
    && WellFormedOid(oid)
    && WellFormedOid(baseOid)
    && |baseOid| <= |oid|
    && oid[..|baseOid|] == baseOid
    && (|oid| == |baseOid| || oid[|baseOid|] == '.')
  }

  /** GetSubOid exactly as the source writes it: it panics wherever its call of
      IsOidPartOf panics, and `oid[l+1:]` panics when `oid == baseOid`. */
  function GetSubOidAsWritten(oid: string, baseOid: string): (r: Go<string>)
    ensures r.Panics? <==> WellFormedOid(oid) && WellFormedOid(baseOid) && (|oid| < |baseOid| || oid == baseOid)
    ensures r.Returns? ==> r.value == GetSubOid(oid, baseOid)
  {
    if !WellFormedOid(oid) || !WellFormedOid(baseOid) then Returns("")
    else
      match IsOidPartOfAsWritten(oid, baseOid)
      case Panics => Panics
      case Returns(partOf) =>
        if !partOf then Returns("")
        else
          var l := |baseOid|;
          if l + 1 > |oid| then Panics else Returns(oid[l + 1..])
  }

  /** Asking for the row index of a column's own OID makes the source panic. */
  lemma EqualOidPanics()
    ensures IsOidPartOf(".1.2", ".1.2")
    ensures GetSubOidAsWritten(".1.2", ".1.2") == Panics
    ensures GetSubOid(".1.2", ".1.2") == ""
  {
  }

  /** An OID that passes the check from position `j` on, where a dot stands,
      is again an OID. */
  lemma WellFormedSuffix(s: string, j: nat)
    requires WellFormedOid(s) && j < |s| - 1 && s[j] == '.'
    ensures WellFormedOid(s[j..])
  {
    var t := s[j..];
    forall i | 1 <= i < |t| ensures OidCharAt(t, i) {
      assert t[i] == s[j + i] && t[i - 1] == s[j + i - 1];
      assert OidCharAt(s, j + i);
    }
  }

  /** GetSubOid, corrected: the row index of `oid` below `baseOid`, the text
      after `baseOid` and its separating dot; "" unless `oid` lies strictly below. */
  function GetSubOid(oid: string, baseOid: string): (r: string)
    ensures IsOidPartOf(oid, baseOid) && oid != baseOid ==> baseOid + "." + r == oid && WellFormedOid("." + r)
    ensures !IsOidPartOf(oid, baseOid) || oid == baseOid ==> r == ""
  {
    if IsOidPartOf(oid, baseOid) && oid != baseOid then
      var l := |baseOid|;
      WellFormedSuffix(oid, l);
      assert oid[l..] == "." + oid[l + 1..];
      assert oid == baseOid + "." + oid[l + 1..] by {
        assert oid == oid[..l] + oid[l..];
      }
      oid[l + 1..]
    else ""
  }

  /** Joining two OIDs gives an OID. */
  lemma {:induction false} WellFormedConcat(x: string, y: string)
    requires WellFormedOid(x) && WellFormedOid(y)
    ensures WellFormedOid(x + y)
  {
    var s := x + y;
    forall i | 1 <= i < |s| ensures OidCharAt(s, i) {
      if i < |x| {
        assert s[i] == x[i] && s[i - 1] == x[i - 1];
        assert OidCharAt(x, i);
      } else if i == |x| {
        assert s[i] == y[0] && s[i - 1] == x[|x| - 1];
      } else {
        assert s[i] == y[i - |x|] && s[i - 1] == y[i - |x| - 1];
        assert OidCharAt(y, i - |x|);
      }
    }
  }

  /** The row index round trip from the other side: appending a relative OID
      to a column OID and asking for the row index gives back that relative OID. */
  lemma SubOidOfAppended(baseOid: string, rel: string)
    requires WellFormedOid(baseOid) && WellFormedOid("." + rel)
    ensures IsOidPartOf(baseOid + "." + rel, baseOid)
    ensures GetSubOid(baseOid + "." + rel, baseOid) == rel
  {
    var oid := baseOid + "." + rel;
    WellFormedConcat(baseOid, "." + rel);
    assert oid == baseOid + ("." + rel);
    assert oid[..|baseOid|] == baseOid;
    assert oid[|baseOid|] == '.';
    assert oid != baseOid;
  }

  /** "Part of" is reflexive on OIDs. */
  lemma PartOfReflexive(p: string)
    requires WellFormedOid(p)
    ensures IsOidPartOf(p, p)
  {
  }

  /** "Part of" is antisymmetric. */
  lemma PartOfAntisymmetric(a: string, b: string)
    requires IsOidPartOf(a, b) && IsOidPartOf(b, a)
    ensures a == b
  {
  }

  /** "Part of" is transitive: below something below `c` is below `c`. */
  lemma PartOfTransitive(a: string, b: string, c: string)
    requires IsOidPartOf(a, b) && IsOidPartOf(b, c)
    ensures IsOidPartOf(a, c)
  {
  }

  /** The match stops at a label boundary: a digit right after `baseOid`
      means a different label, so `oid` is not part of `baseOid`. */
  lemma LabelBoundary(oid: string, baseOid: string)
    requires |baseOid| < |oid| && IsDigit(oid[|baseOid|])
    ensures !IsOidPartOf(oid, baseOid)
  {
  }

  /** The SNMP protocol versions of the client library. */
  datatype SnmpVersion = Version1 | Version2c | Version3

  /** The effect of SetVersion: the client's version field afterwards and the
      error returned, if any. */
  datatype VersionUpdate = VersionUpdate(version: SnmpVersion, err: Option<string>)

  /** SetVersion on a client whose version field holds `current`. */
  function SetVersion(current: SnmpVersion, version: string): (r: VersionUpdate)
    ensures r.err == None <==> version in {"1", "2", "2c"}
    ensures version == "3" ==> r.version == Version3 && r.err == Some("SNMPv3 config not implemented")
    ensures version !in {"1", "2", "2c", "3"} ==> r == VersionUpdate(current, Some("unknown SNMP version: " + version))
  {
    match version
    case "1" => VersionUpdate(Version1, None)
    case "2" => VersionUpdate(Version2c, None)
    case "2c" => VersionUpdate(Version2c, None)
    case "3" => VersionUpdate(Version3, Some("SNMPv3 config not implemented"))
    case _ => VersionUpdate(current, Some("unknown SNMP version: " + version))
  }

  /** The conventional selector of each version ("1", "2c", "3"). */
  function Selector(v: SnmpVersion): string {
    match v
    case Version1 => "1"
    case Version2c => "2c"
    case Version3 => "3"
  }

  /** Every version can be selected by its conventional name, whatever the
      client held before; only version 3 is refused (but still set). */
  lemma SetVersionSelects(current: SnmpVersion, v: SnmpVersion)
    ensures SetVersion(current, Selector(v)).version == v
    ensures SetVersion(current, Selector(v)).err.Some? <==> v == Version3
    ensures SetVersion(current, "2") == SetVersion(current, "2c")
  {
  }
}
