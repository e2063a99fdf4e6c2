/**
  Model of the physical-drive firmware check whose observable behaviour
  hp/phy_drv/drive_test.go pins down: a drive record is judged OK or CRITICAL
  from the status the drive reports and from its model and firmware revision,
  and the verdict comes with a message that echoes the drive's fields.

  The table of affected models is a parameter; `KnownAffected` holds the one
  entry the test names.
*/
module PhyDrv {
  import opened SnmpUtil

  /** The monitoring states a check reports. */
  datatype Severity = Ok | Warning | Critical | Unknown

  /** One physical drive as read from the controller's drive table. */
  datatype PhysicalDrive = PhysicalDrive(
    id: string,
    model: string,
    fwRev: string,
    serial: string,
    status: string,
    hours: int)

  /** Affected drive models, each with the firmware revisions that carry the fix. */
  type AffectedModels = map<string, set<string>>

  const AffectedDrive: string := "VO0480JFDGT"
  const AffectedDriveFixed: string := "HPD8"

  /** The affected model and fixed firmware that the test relies on. */
  const KnownAffected: AffectedModels := map[AffectedDrive := {AffectedDriveFixed}]

  predicate AllDecimalDigits(s: string) {
    forall i :: 0 <= i < |s| ==> IsDigit(s[i])
  }

  function DigitChar(d: nat): (c: char)
    requires d < 10
    ensures IsDigit(c)
  {
    ('0' as int + d) as char
  }

  function DigitValue(c: char): (d: nat)
    requires IsDigit(c)
    ensures d < 10 && DigitChar(d) == c
  {
    c as int - '0' as int
  }

  /** The decimal text of a natural number, as `%d` prints it: digits only,
      and no leading zero unless the number is zero. */
  function NatToDecimal(n: nat): (s: string)
    ensures |s| > 0 && AllDecimalDigits(s)
    ensures s[0] == '0' ==> n == 0
  {
    if n < 10 then [DigitChar(n)]
    else NatToDecimal(n / 10) + [DigitChar(n % 10)]
  }

  /** The number a string of decimal digits denotes. */
  function DecimalValue(s: string): nat
    requires AllDecimalDigits(s)
  {
    if s == [] then 0 else DecimalValue(s[..|s| - 1]) * 10 + DigitValue(s[|s| - 1])
  }

  /** Reading the printed number back gives the number. */
  lemma {:induction false} DecimalRoundTrip(n: nat)
    ensures DecimalValue(NatToDecimal(n)) == n
  {
    var s := NatToDecimal(n);
    if n >= 10 {
      DecimalRoundTrip(n / 10);
      assert s[..|s| - 1] == NatToDecimal(n / 10);
    }
  }

  /** An integer as `%d` prints it. */
  function FormatInt(n: int): string {
    if n < 0 then "-" + NatToDecimal(-n) else NatToDecimal(n)
  }

  /** The part of every message that identifies the drive, fields in the order
      id, model, serial, firmware, hours. */
  function Description(d: PhysicalDrive): string {
    "(" + d.id + " ) model=" + d.model + " serial=" + d.serial
      + " firmware=" + d.fwRev + " hours=" + FormatInt(d.hours)
  }

  /** The verdict on one drive: a status other than "ok" reported by the drive
      is CRITICAL first of all; otherwise an affected model is CRITICAL unless
      its firmware is one that carries the fix; every other drive is OK. */
  function GetNagiosStatus(affected: AffectedModels, d: PhysicalDrive): (r: (Severity, string))
    ensures r.0 == Critical <==> d.status != "ok" || (d.model in affected && d.fwRev !in affected[d.model])
    ensures r.0 != Critical ==> r.0 == Ok
    ensures Description(d) <= r.1
    ensures d.status != "ok" ==> r.1 == Description(d) + " - status: " + d.status
    ensures r.1 == Description(d) <==> d.status == "ok" && d.model !in affected
    ensures d.status == "ok" && d.model in affected ==>
      r.1 == Description(d) + (if d.fwRev in affected[d.model] then " - firmware update applied"
                               else " - affected by FW bug")
  {
    var desc := Description(d);
    if d.status != "ok" then
      (Critical, desc + " - status: " + d.status)
    else if d.model in affected then
      if d.fwRev in affected[d.model] then (Ok, desc + " - firmware update applied")
      else (Critical, desc + " - affected by FW bug")
    else
      (Ok, desc)
  }

  /** The drive the test starts from. */
  const TestDrive: PhysicalDrive := PhysicalDrive("1.1", "OTHERDRIVE", "HPD1", "ABC123", "ok", 1337)

  /** The test drive's hours as printed. */
  lemma TestHoursText()
    ensures FormatInt(TestDrive.hours) == "1337"
  {
  }

  /** An unaffected drive reporting "ok" is OK and the message only echoes it. */
  lemma GoodDriveIsOk()
    ensures GetNagiosStatus(KnownAffected, TestDrive)
      == (Ok, "(" + "1.1" + " ) model=" + "OTHERDRIVE" + " serial=" + "ABC123"
              + " firmware=" + "HPD1" + " hours=" + "1337")
  {
    TestHoursText();
    assert TestDrive.model !in KnownAffected;
  }

  /** A drive reporting "failed" is CRITICAL even though its model is unaffected. */
  lemma FailedDriveIsCritical()
    ensures GetNagiosStatus(KnownAffected, TestDrive.(status := "failed"))
      == (Critical, "(" + "1.1" + " ) model=" + "OTHERDRIVE" + " serial=" + "ABC123"
                    + " firmware=" + "HPD1" + " hours=" + "1337" + " - status: " + "failed")
  {
    TestHoursText();
  }

  /** The affected model on an old firmware is CRITICAL "affected". */
  lemma AffectedDriveIsCritical()
    ensures GetNagiosStatus(KnownAffected, TestDrive.(model := AffectedDrive))
      == (Critical, "(" + "1.1" + " ) model=" + "VO0480JFDGT" + " serial=" + "ABC123"
                    + " firmware=" + "HPD1" + " hours=" + "1337" + " - affected by FW bug")
  {
    TestHoursText();
    assert "HPD1" !in KnownAffected[AffectedDrive];
  }

  /** The affected model on the fixed firmware is OK, "applied". */
  lemma FixedDriveIsOk()
    ensures GetNagiosStatus(KnownAffected, TestDrive.(model := AffectedDrive, fwRev := AffectedDriveFixed))
      == (Ok, "(" + "1.1" + " ) model=" + "VO0480JFDGT" + " serial=" + "ABC123"
              + " firmware=" + "HPD8" + " hours=" + "1337" + " - firmware update applied")
  {
    TestHoursText();
  }

  /** A reported failure decides the verdict whatever the model and firmware. */
  lemma FailureOverridesFirmware(affected: AffectedModels, d: PhysicalDrive, model: string, fwRev: string)
    requires d.status != "ok"
    ensures GetNagiosStatus(affected, d.(model := model, fwRev := fwRev)).0 == Critical
  {
  }

  /** The model alone does not decide: for an affected model, a fixed firmware
      gives OK and any other firmware gives CRITICAL. */
  lemma ModelAndFirmwareDecide(affected: AffectedModels, d: PhysicalDrive, fixed: string, other: string)
    requires d.status == "ok" && d.model in affected
    requires fixed in affected[d.model] && other !in affected[d.model]
    ensures GetNagiosStatus(affected, d.(fwRev := fixed)).0 == Ok
    ensures GetNagiosStatus(affected, d.(fwRev := other)).0 == Critical
  {
  }

  /** For a model outside the table the firmware revision plays no part in the verdict. */
  lemma UnaffectedIgnoresFirmware(affected: AffectedModels, d: PhysicalDrive, fwRev: string)
    requires d.model !in affected
    ensures GetNagiosStatus(affected, d.(fwRev := fwRev)).0 == GetNagiosStatus(affected, d).0
  {
  }
}
