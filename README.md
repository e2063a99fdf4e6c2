# check_hp_firmware core, modelled in Dafny

check_hp_firmware is a monitoring plugin that reads HPE controller, drive and
iLO data over SNMP. It reports drives and controllers whose firmware has a known
defect. This project models two parts of it:

- **OID toolkit** (`snmp/util.go`, modules `SnmpUtil` and `OidLabels`).
  `IsOid` checks that a string is a dotted numeric SNMP object identifier.
  `IsOidPartOf` tells whether one OID is another one or lies below it.
  `GetSubOid` derives the row index of a table cell from the cell's OID and
  its column's OID. `SetVersion` maps a protocol-version selector onto an
  SNMP version.
  `IsOid` is a loop, so it is a method. It is proved equal to the predicate
  `WellFormedOid`, and the pure functions use that predicate.
  `OidLabels` reads an OID as a list of digit labels. It proves that this
  reading agrees with the character-level check. Under it, "part of" is
  "label-list prefix", and the row index is the text of the labels after the
  column's own.
- **Drive firmware rule** (`hp/phy_drv/drive_test.go`, module `PhyDrv`).
  `GetNagiosStatus` turns a `PhysicalDrive` record into a severity and a
  message. hp/phy_drv/drive.go is not part of this model. The model follows what
  the test pins down:
  - a reported failure is CRITICAL;
  - the affected model `VO0480JFDGT` on firmware `HPD1` is CRITICAL "affected";
  - the same model on `HPD8` is OK "applied";
  - every other drive is OK.

  The table of affected models, each with its fixed firmware revisions, is a
  parameter. `KnownAffected` holds the one entry the test uses.

Go panics are modelled by the datatype `SnmpUtil.Go` (`Returns(v)` or
`Panics`). The two slicing panics in `snmp/util.go` are listed under Findings.
Each has an as-written member that panics and a corrected member that returns
a value. The rest of the model uses the corrected members.

## Model

| member | source | states |
|---|---|---|
| `SnmpUtil.IsOid` | snmp/util.go:8-31 | The loop accepts exactly the strings in `WellFormedOid`: at least two characters, a leading dot, only digits and dots after it, no two adjacent dots, no trailing dot |
| `SnmpUtil.MalformedRejected` | snmp/util.go:9-28 | Each failure is rejected on its own: fewer than 2 characters or no leading dot; two adjacent dots (the leading dot counts); a character that is neither a dot nor a digit; a trailing dot |
| `SnmpUtil.OidExamples` | snmp/util.go:8-56 | `.1.1` is accepted. `1.1`, `.1..1`, `.1.1.` and `..1` are rejected. `.1.3.6.1.1.5.1.1` is part of `.1.3.6.1.1.5` with row index `1.1`. `.1.3.6.1.1.50` is not part of `.1.3.6.1.1.5`, and `.1.10` is not part of `.1.1` |
| `OidLabels.Labels` | snmp/util.go:8-31 | Every accepted OID splits into a non-empty list of non-empty digit labels, and putting a dot before each label rebuilds the OID |
| `OidLabels.DottedWellFormed` | snmp/util.go:8-31 | A dot before each label of a non-empty list of digit labels always gives an accepted OID |
| `OidLabels.WellFormedIffLabels` | snmp/util.go:8-31 | `IsOid` holds exactly when the string is a dot followed by one or more non-empty digit labels joined by dots |
| `OidLabels.DottedInjective` | snmp/util.go:8-31 | Equal OID texts have equal label lists |
| `OidLabels.LabelsUnique` | snmp/util.go:8-31 | The labels that `Labels` reads off an accepted OID are its only split into digit labels |
| `SnmpUtil.IsOidPartOfAsWritten` | snmp/util.go:34-47 | The source's function panics exactly when both arguments are OIDs and `oid` is shorter than `baseOid`. Whenever it returns, it agrees with the corrected `IsOidPartOf` |
| `SnmpUtil.ShorterOidPanics` | snmp/util.go:39-40 | `IsOidPartOf(".1", ".1.2")` panics as written, though `.1` is not part of `.1.2` |
| `SnmpUtil.IsOidPartOf` | snmp/util.go:34-47 | True exactly when both arguments are OIDs and `oid == baseOid` or `oid` begins with `baseOid + "."`. It is false when either argument is not an OID |
| `SnmpUtil.PartOfReflexive` | snmp/util.go:39-43 | Every OID is part of itself |
| `SnmpUtil.PartOfAntisymmetric` | snmp/util.go:34-47 | Two OIDs that are each part of the other are equal |
| `SnmpUtil.PartOfTransitive` | snmp/util.go:34-47 | An OID part of one that is part of `c` is part of `c` |
| `SnmpUtil.LabelBoundary` | snmp/util.go:41 | When a digit follows `baseOid` inside `oid`, `oid` is not part of `baseOid`: the match stops at a label boundary, not at any substring |
| `OidLabels.DottedPrefix` | snmp/util.go:39-44 | If the text of label list `b`, followed by a dot or by nothing, begins the text of `a`, then `b` is a prefix of `a` and the remaining text belongs to the remaining labels |
| `OidLabels.LabelPrefixIsPartOf` | snmp/util.go:39-44 | An OID with more labels after those of `baseOid` is part of `baseOid` |
| `OidLabels.PartOfIsLabelPrefix` | snmp/util.go:39-44 | An OID part of `baseOid` carries `baseOid`'s labels as a prefix |
| `OidLabels.PartOfIffLabelPrefix` | snmp/util.go:34-47 | `IsOidPartOf` is exactly "the base's labels are a prefix of the OID's labels" |
| `SnmpUtil.GetSubOidAsWritten` | snmp/util.go:49-56 | The source's function panics exactly when both arguments are OIDs and `oid` is either shorter than `baseOid` (through `IsOidPartOf`) or equal to it (through `oid[l+1:]`). Whenever it returns, it agrees with the corrected `GetSubOid` |
| `SnmpUtil.EqualOidPanics` | snmp/util.go:54-55 | `.1.2` is part of itself, yet `GetSubOid(".1.2", ".1.2")` panics as written. The corrected function gives `""` |
| `SnmpUtil.GetSubOid` | snmp/util.go:49-56 | For a strict sub-OID, `baseOid + "." + r == oid` and `"." + r` is itself an OID. In every other case (either argument invalid, not part of, or equal) `r == ""` |
| `SnmpUtil.SubOidOfAppended` | snmp/util.go:49-56 | The opposite round trip: appending a dot and a relative OID to an OID and asking for the row index gives back the relative OID |
| `OidLabels.RowIndexIsRemainingLabels` | snmp/util.go:49-56 | The row index is the text of the OID's labels after the base's labels, joined by dots |
| `SnmpUtil.SetVersion` | snmp/util.go:58-73 | No error exactly for `"1"`, `"2"` and `"2c"`. `"3"` sets Version3 and still returns "SNMPv3 config not implemented". Any other selector leaves the version unchanged and returns "unknown SNMP version: " followed by the selector |
| `SnmpUtil.SetVersionSelects` | snmp/util.go:59-65 | The selectors "1", "2c" and "3" set Version1, Version2c and Version3 whatever the client held before. Only version 3 reports an error. "2" acts like "2c" |
| `PhyDrv.NatToDecimal` | hp/phy_drv/drive_test.go:19-28 | The printed hours are decimal digits only, with no leading zero except for zero itself |
| `PhyDrv.DecimalRoundTrip` | hp/phy_drv/drive_test.go:19-28 | Reading the printed hours back gives the hours |
| `PhyDrv.GetNagiosStatus` | hp/phy_drv/drive_test.go:12-48 | CRITICAL exactly when the reported status is not "ok", or when the model is affected and its firmware is not a fixed one. Otherwise OK. The message always begins with id, model, serial, firmware and hours in that order. A status other than "ok" adds " - status: " and the status. Nothing is added exactly when the status is "ok" and the model is unaffected. An affected model reporting "ok" gets " - firmware update applied" on a fixed firmware and " - affected by FW bug" on any other, for any table of affected models |
| `PhyDrv.GoodDriveIsOk` | hp/phy_drv/drive_test.go:13-28 | The test drive (`OTHERDRIVE`, `HPD1`, status "ok") is OK with message `(1.1 ) model=OTHERDRIVE serial=ABC123 firmware=HPD1 hours=1337` |
| `PhyDrv.FailedDriveIsCritical` | hp/phy_drv/drive_test.go:30-34 | With status "failed" the same drive is CRITICAL, and its message ends in ` - status: failed` |
| `PhyDrv.AffectedDriveIsCritical` | hp/phy_drv/drive_test.go:36-41 | Model `VO0480JFDGT` on firmware `HPD1` is CRITICAL, and its message ends in ` - affected by FW bug` |
| `PhyDrv.FixedDriveIsOk` | hp/phy_drv/drive_test.go:43-47 | Model `VO0480JFDGT` on the fixed firmware `HPD8` is OK, and its message ends in ` - firmware update applied` |
| `PhyDrv.FailureOverridesFirmware` | hp/phy_drv/drive_test.go:30-34 | A status other than "ok" gives CRITICAL whatever the model and firmware |
| `PhyDrv.ModelAndFirmwareDecide` | hp/phy_drv/drive_test.go:36-47 | For an affected model reporting "ok", a fixed firmware gives OK and any other firmware gives CRITICAL. The model alone does not decide |
| `PhyDrv.UnaffectedIgnoresFirmware` | hp/phy_drv/drive_test.go:25-28 | For a model outside the table, the firmware revision plays no part in the severity |

## Left out

- main.go is glue and is not part of this model: flag parsing, building and connecting the SNMP client over IPv4 or IPv6, exit codes, and the summary line.
- hp/cntlr, hp/ilo and nagios are not part of this model: the table loaders, the controller and iLO extractors and rules, and the result aggregator. The controller firmware range and the iLO floors appear only in main.go's help text.
- version.go is not part of this model. It only joins build metadata.
- main.go calls `snmp.VersionFromString`. That function is not part of this model; `SetVersion` is modelled instead.
- `SnmpUtil.SetVersion`: the gosnmp client object is reduced to its `Version` field. The field's value before the call is a parameter, and the value after it is part of the result.
- Strings are sequences of characters, not bytes. Go's `len` and slices count bytes. Every string that passes `IsOid` is ASCII, so the model slices only where bytes and characters coincide. `IsOid`'s verdict is the same either way, because a non-ASCII character is neither a digit nor a dot.
- Transport, reading snmpwalk files and timeouts are I/O and are left out.
- `PhyDrv.GetNagiosStatus`: the source file is not part of this model, so the function follows what the test asserts:
  - A status other than "ok" counts as a reported failure. The test uses only "failed".
  - A firmware counts as fixed only if it is listed for its model. The test shows only `HPD8`, so no version ordering is modelled.
  - The notes " - affected by FW bug" and " - firmware update applied" are the wording of main.go's help text (main.go:43-44). The test only requires that they contain "affected" and "applied".
  - The id is printed followed by one space. The test only shows the id "1.1", so any padding to a fixed width is not modelled.

## Findings

| source | as written | input that shows it | evidently intended | confidence | as-written member | corrected member |
|---|---|---|---|---|---|---|
| snmp/util.go:40 | `oid[:lenBase]` slices `oid` to the length of `baseOid` before any length check | `IsOidPartOf(".1", ".1.2")` (both valid OIDs) panics: slice bounds out of range | return false: `.1` is not equal to or below `.1.2` | not executed; high | `SnmpUtil.IsOidPartOfAsWritten`, `SnmpUtil.ShorterOidPanics` | `SnmpUtil.IsOidPartOf` |
| snmp/util.go:55 | `oid[l+1:]` after the guard `IsOidPartOf`, which also holds when `oid == baseOid` | `GetSubOid(".1.2", ".1.2")` panics: slice bounds out of range | return `""` (there is no row index below the OID itself) | not executed; medium | `SnmpUtil.GetSubOidAsWritten`, `SnmpUtil.EqualOidPanics` | `SnmpUtil.GetSubOid` |
