/**
 * The decisions WmiKeyReader makes on what SoftwareLicensingProduct returns:
 * the status-code normalisation, the check of the installed key against the
 * partial key WMI reports, the first-record rule for the Windows license and
 * the filter that keeps every other product. A query result is a sequence of
 * rows; the query itself (and its WHERE clause) is the WMI service's work.
 */
module WmiKeyReader {
  import opened Wrappers
  import opened Text
  import opened Models
  import opened KeyDecoder

  /** The range of a WMI uint32 property. */
  newtype uint32 = x: int | 0 <= x < 0x1_0000_0000

  /** One SoftwareLicensingProduct row: a property read `as string` is None when missing or not a string; LicenseStatus is None unless it is a uint. */
  datatype WmiRow = WmiRow(
    name: Option<string>,
    description: Option<string>,
    applicationId: Option<string>,
    licenseStatus: Option<uint32>,
    partialProductKey: Option<string>,
    productKeyChannel: Option<string>)

  /** The Windows ApplicationId. */
  const WindowsAppId: string := "55c92734-d682-4d71-983e-d6ec3f16059f"

  /** The unchecked `(int)status` cast: values from 2^31 up wrap to negative numbers. */
  function ToInt32(u: uint32): (i: int)
    ensures -0x8000_0000 <= i < 0x8000_0000
    ensures i % 0x1_0000_0000 == u as int % 0x1_0000_0000
  {
    if u < 0x8000_0000 then u as int else u as int - 0x1_0000_0000
  }

  /** The status stored for a LicenseStatus code: the member with that value when Enum.IsDefined accepts the cast value, Unknown otherwise. */
  function StatusOf(u: uint32): (s: LicenseStatus)
    ensures u <= 6 ==> s as int == u as int
    ensures u > 6 ==> s == Unknown
  {
    var v := ToInt32(u);
    if IsDefined(v) then v as LicenseStatus else Unknown
  }

  /** Code 0xFFFFFFFF is the one code above 6 that Enum.IsDefined accepts: it wraps to -1, the value of Unknown itself. */
  lemma WrappedUnknown(u: uint32)
    ensures IsDefined(ToInt32(u)) <==> u <= 6 || u == 0xFFFF_FFFF
  {
  }

  /** The PartialKeyMatch value after the check at the first Windows row. `installedKey[^5..]` throws on a key shorter than 5 characters; the surrounding catch ends the update and the field keeps its value. */
  function PartialKeyCheck(installedKey: Option<string>, partialKey: Option<string>, current: Option<bool>): (r: Option<bool>)
    ensures !(NonEmpty(installedKey) && NonEmpty(partialKey)) ==> r == current
    ensures r != current ==> r.Some? && NonEmpty(installedKey) && NonEmpty(partialKey) && |installedKey.value| >= 5
    ensures r == Some(true) && r != current ==>
      EqualsIgnoreCase(installedKey.value[|installedKey.value| - 5..], partialKey.value)
    ensures NonEmpty(installedKey) && NonEmpty(partialKey) && |installedKey.value| >= 5 ==>
      r == Some(EqualsIgnoreCase(installedKey.value[|installedKey.value| - 5..], partialKey.value))
    ensures NonEmpty(installedKey) && |installedKey.value| < 5 ==> r == current
  {
    if NonEmpty(installedKey) && NonEmpty(partialKey) then
      var key := installedKey.value;
      if |key| < 5 then current
      else Some(EqualsIgnoreCase(key[|key| - 5..], partialKey.value))
    else current
  }

  /** For a key as the decoders emit it and a non-empty partial key, the check always yields a verdict, and it is true exactly when WMI's partial key is the key's last group. */
  lemma DecodedKeyChecked(installedKey: string, partialKey: string, current: Option<bool>)
    requires ValidKey(installedKey) && |partialKey| > 0
    ensures PartialKeyCheck(Some(installedKey), Some(partialKey), current).Some?
    ensures PartialKeyCheck(Some(installedKey), Some(partialKey), current).value
      <==> EqualsIgnoreCase(installedKey[24..], partialKey)
  {
  }

  /** A true verdict means WMI's partial key has exactly five characters. */
  lemma MatchMeansFiveCharacters(installedKey: Option<string>, partialKey: Option<string>, current: Option<bool>)
    requires current != Some(true)
    requires PartialKeyCheck(installedKey, partialKey, current) == Some(true)
    ensures |partialKey.value| == 5
  {
  }

  /** The license record PopulateAllLicenses builds from a row; without a uint LicenseStatus the record keeps its default, Unknown. */
  function LicenseOf(row: WmiRow): (l: ProductLicenseInfo)
    ensures l.name == row.name && l.description == row.description && l.applicationId == row.applicationId
    ensures l.partialProductKey == row.partialProductKey && l.channel == row.productKeyChannel
    ensures row.licenseStatus.None? ==> l.licenseStatus == Unknown
    ensures row.licenseStatus.Some? ==> l.licenseStatus == StatusOf(row.licenseStatus.value)
  {
    ProductLicenseInfo(
      row.name, row.description, row.applicationId, row.partialProductKey,
      if row.licenseStatus.Some? then StatusOf(row.licenseStatus.value) else Unknown,
      row.productKeyChannel)
  }

  /** The row is the Windows entry: string.Equals with a null ApplicationId is false, so such a row is kept. */
  predicate IsWindowsRow(row: WmiRow)
  {
    row.applicationId.Some? && EqualsIgnoreCase(row.applicationId.value, WindowsAppId)
  }

  /** The records PopulateAllLicenses appends for a query result: the non-Windows rows, in order. */
  function OtherLicenses(rows: seq<WmiRow>): (ls: seq<ProductLicenseInfo>)
    ensures |ls| <= |rows|
  {
    if |rows| == 0 then []
    else
      var last := rows[|rows| - 1];
      OtherLicenses(rows[..|rows| - 1]) + (if IsWindowsRow(last) then [] else [LicenseOf(last)])
  }

  /** Filtering distributes over concatenation: the rows are handled one at a time, in order. */
  lemma {:induction false} OtherLicensesAppend(a: seq<WmiRow>, b: seq<WmiRow>)
    ensures OtherLicenses(a + b) == OtherLicenses(a) + OtherLicenses(b)
  {
    if |b| == 0 {
      assert a + b == a;
    } else {
      assert (a + b)[..|a + b| - 1] == a + b[..|b| - 1];
      OtherLicensesAppend(a, b[..|b| - 1]);
    }
  }

  /** No appended record carries the Windows ApplicationId (ignoring case). */
  lemma {:induction false} NoWindowsLicense(rows: seq<WmiRow>)
    ensures forall k :: 0 <= k < |OtherLicenses(rows)| ==>
      !(OtherLicenses(rows)[k].applicationId.Some? &&
        EqualsIgnoreCase(OtherLicenses(rows)[k].applicationId.value, WindowsAppId))
  {
    if |rows| > 0 {
      NoWindowsLicense(rows[..|rows| - 1]);
    }
  }

  /** Every non-Windows row is kept: a row absent from the Windows filter shows up as its record. */
  lemma {:induction false} OtherRowKept(rows: seq<WmiRow>, k: int)
    requires 0 <= k < |rows| && !IsWindowsRow(rows[k])
    ensures LicenseOf(rows[k]) in OtherLicenses(rows)
  {
    var last := |rows| - 1;
    if k < last {
      OtherRowKept(rows[..last], k);
    }
  }

  /** A result without any Windows row is kept whole. */
  lemma {:induction false} NoWindowsRowKeepsAll(rows: seq<WmiRow>)
    requires forall k :: 0 <= k < |rows| ==> !IsWindowsRow(rows[k])
    ensures |OtherLicenses(rows)| == |rows|
    ensures forall k :: 0 <= k < |rows| ==> OtherLicenses(rows)[k] == LicenseOf(rows[k])
  {
    if |rows| > 0 {
      NoWindowsRowKeepsAll(rows[..|rows| - 1]);
    }
  }

  /** The record after PopulateLicenseInfo has read the first row of the Windows query: names, partial key and channel are overwritten, the status only when the row has one, and PartialKeyMatch as PartialKeyCheck says. */
  function AfterFirstRow(st: KeyInfoState, row: WmiRow): (r: KeyInfoState)
    ensures r.installedKey == st.installedKey && r.allLicenses == st.allLicenses
    ensures r.partialProductKey == row.partialProductKey
  {
    st.(
      wmiEdition := if row.name.Some? then row.name else row.description,
      partialProductKey := row.partialProductKey,
      licenseChannel := row.productKeyChannel,
      licenseStatus := if row.licenseStatus.Some? then StatusOf(row.licenseStatus.value) else st.licenseStatus,
      partialKeyMatch := PartialKeyCheck(st.installedKey, row.partialProductKey, st.partialKeyMatch))
  }

  /** The assignments PopulateLicenseInfo makes from the first row before the partial-key validation. */
  method StoreRow(info: WindowsKeyInfo, row: WmiRow)
    modifies info
    ensures info.State() == old(info.State()).(
      wmiEdition := if row.name.Some? then row.name else row.description,
      partialProductKey := row.partialProductKey,
      licenseChannel := row.productKeyChannel,
      licenseStatus := if row.licenseStatus.Some? then StatusOf(row.licenseStatus.value) else old(info.licenseStatus))
  {
    info.wmiEdition := if row.name.Some? then row.name else row.description;
    info.partialProductKey := row.partialProductKey;
    info.licenseChannel := row.productKeyChannel;
    StoreStatus(info, row.licenseStatus);
  }

  /** A uint LicenseStatus replaces the stored status, normalised by StatusOf; without one the status is kept. */
  method StoreStatus(info: WindowsKeyInfo, status: Option<uint32>)
    modifies info
    ensures info.State() == old(info.State()).(
      licenseStatus := if status.Some? then StatusOf(status.value) else old(info.licenseStatus))
  {
    if status.Some? {
      info.licenseStatus := StatusOf(status.value);
    }
  }

  /** The partial-key validation at the end of PopulateLicenseInfo's first iteration. */
  method ValidatePartialKey(info: WindowsKeyInfo)
    modifies info
    ensures info.State() == old(info.State()).(
      partialKeyMatch := PartialKeyCheck(old(info.installedKey), old(info.partialProductKey), old(info.partialKeyMatch)))
  {
    // A key shorter than 5 characters makes key[^5..] throw; the catch then leaves PartialKeyMatch as it is.
    if NonEmpty(info.installedKey) && NonEmpty(info.partialProductKey) && |info.installedKey.value| >= 5 {
      var key := info.installedKey.value;
      var last5 := key[|key| - 5..];
      info.partialKeyMatch := Some(EqualsIgnoreCase(last5, info.partialProductKey.value));
    }
  }

  /**
   * PopulateLicenseInfo on the rows of the Windows query (ApplicationId is the
   * Windows AppId and PartialProductKey is not null): only the first row is
   * used; with no row nothing changes.
   */
  method PopulateLicenseInfo(info: WindowsKeyInfo, rows: seq<WmiRow>)
    modifies info
    ensures |rows| == 0 ==> info.State() == old(info.State())
    ensures |rows| > 0 ==> info.State() == AfterFirstRow(old(info.State()), rows[0])
  {
    if |rows| > 0 {
      StoreRow(info, rows[0]);
      ValidatePartialKey(info);
    }
  }

  /** PopulateAllLicenses: appends a record for every row whose ApplicationId is not the Windows one, in query order; no other field changes. */
  method PopulateAllLicenses(info: WindowsKeyInfo, rows: seq<WmiRow>)
    modifies info
    ensures info.State() == old(info.State()).(allLicenses := old(info.allLicenses) + OtherLicenses(rows))
  {
    var i := 0;
    while i < |rows|
      invariant 0 <= i <= |rows|
      invariant info.State() == old(info.State()).(allLicenses := old(info.allLicenses) + OtherLicenses(rows[..i]))
    {
      var row := rows[i];
      assert rows[..i + 1][..i] == rows[..i];
      if row.applicationId.Some? && EqualsIgnoreCase(row.applicationId.value, WindowsAppId) {
        i := i + 1;
        continue;
      }
      var license := LicenseOf(row);
      info.allLicenses := info.allLicenses + [license];
      i := i + 1;
    }
    assert rows[..i] == rows;
  }
}
