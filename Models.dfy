/**
 * The record types the readers fill in: the license-status enumeration with
 * its display names, the aggregated key information, and the per-product and
 * per-previous-installation records.
 */
module Models {
  import opened Wrappers

  /** A C# enum over int: any 32-bit value can be stored, not only the named ones. */
  newtype LicenseStatus = x: int | -0x8000_0000 <= x < 0x8000_0000

  const Unlicensed: LicenseStatus := 0
  const Licensed: LicenseStatus := 1
  const OobGrace: LicenseStatus := 2
  const OotGrace: LicenseStatus := 3
  const NonGenuineGrace: LicenseStatus := 4
  const Notification: LicenseStatus := 5
  const ExtendedGrace: LicenseStatus := 6
  const Unknown: LicenseStatus := -1

  /** Enum.IsDefined(typeof(LicenseStatus), v): v is the value of one of the eight members. */
  predicate IsDefined(v: int)
  {
    v == Unknown as int || Unlicensed as int <= v <= ExtendedGrace as int
  }

  /** One of the seven statuses with a display name of its own. */
  predicate HasDisplayName(s: LicenseStatus)
  {
    Unlicensed <= s <= ExtendedGrace
  }

  /** The display string of a status; Unknown and every unnamed value show as "Unknown". */
  function ToDisplayString(s: LicenseStatus): (d: string)
    ensures HasDisplayName(s) <==> d != "Unknown"
  {
    if s == Unlicensed then "Unlicensed"
    else if s == Licensed then "Licensed"
    else if s == OobGrace then "Out-of-Box Grace Period"
    else if s == OotGrace then "Out-of-Tolerance Grace Period"
    else if s == NonGenuineGrace then "Non-Genuine Grace Period"
    else if s == Notification then "Notification"
    else if s == ExtendedGrace then "Extended Grace Period"
    else "Unknown"
  }

  /** The seven display names tell the statuses apart. */
  lemma DisplayNamesDistinct(a: LicenseStatus, b: LicenseStatus)
    requires HasDisplayName(a) && HasDisplayName(b) && a != b
    ensures ToDisplayString(a) != ToDisplayString(b)
  {
    assert |ToDisplayString(a)| != |ToDisplayString(b)|;
  }

  /** One licensed product as WMI SoftwareLicensingProduct reports it. */
  datatype ProductLicenseInfo = ProductLicenseInfo(
    name: Option<string>,
    description: Option<string>,
    applicationId: Option<string>,
    partialProductKey: Option<string>,
    licenseStatus: LicenseStatus,
    channel: Option<string>)

  /** A snapshot of a previous Windows installation from a "Source OS" setup subkey. */
  datatype PreviousOsInfo = PreviousOsInfo(
    sourceLabel: Option<string>,
    productName: Option<string>,
    editionId: Option<string>,
    currentBuild: Option<string>,
    productKey: Option<string>)

  /** The values of all the fields of a WindowsKeyInfo at one moment. */
  datatype KeyInfoState = KeyInfoState(
    installedKey: Option<string>,
    installedKeySource: Option<string>,
    legacyKey: Option<string>,
    edition: Option<string>,
    productId: Option<string>,
    buildNumber: Option<string>,
    editionId: Option<string>,
    compositionEditionId: Option<string>,
    installationType: Option<string>,
    registeredOwner: Option<string>,
    oemKey: Option<string>,
    licenseChannel: Option<string>,
    licenseStatus: LicenseStatus,
    partialProductKey: Option<string>,
    wmiEdition: Option<string>,
    allLicenses: seq<ProductLicenseInfo>,
    previousInstallations: seq<PreviousOsInfo>,
    isFromExternalHive: bool,
    hivePath: Option<string>,
    partialKeyMatch: Option<bool>)

  /** The values of a new record, given what its initializer sets about its origin: every other optional field null, status Unknown, both lists empty. */
  function NewState(isFromExternalHive: bool, hivePath: Option<string>): (st: KeyInfoState)
    ensures st.installedKey.None? && st.legacyKey.None? && st.partialKeyMatch.None?
    ensures st.licenseStatus == Unknown && st.allLicenses == [] && st.previousInstallations == []
    ensures st.isFromExternalHive == isFromExternalHive && st.hivePath == hivePath
  {
    KeyInfoState(
      None, None, None, None, None, None, None, None, None, None,
      None, None, Unknown, None, None, [], [], isFromExternalHive, hivePath, None)
  }

  /** The aggregated Windows key and license information the readers assign field by field. */
  class WindowsKeyInfo {
    var installedKey: Option<string>
    var installedKeySource: Option<string>
    var legacyKey: Option<string>
    var edition: Option<string>
    var productId: Option<string>
    var buildNumber: Option<string>
    var editionId: Option<string>
    var compositionEditionId: Option<string>
    var installationType: Option<string>
    var registeredOwner: Option<string>
    var oemKey: Option<string>
    var licenseChannel: Option<string>
    var licenseStatus: LicenseStatus
    var partialProductKey: Option<string>
    var wmiEdition: Option<string>
    var allLicenses: seq<ProductLicenseInfo>
    var previousInstallations: seq<PreviousOsInfo>
    var isFromExternalHive: bool
    var hivePath: Option<string>
    var partialKeyMatch: Option<bool>

    /** The current values of all fields. */
    function State(): KeyInfoState
      reads this
    {
      KeyInfoState(
        installedKey, installedKeySource, legacyKey, edition, productId, buildNumber,
        editionId, compositionEditionId, installationType, registeredOwner,
        oemKey, licenseChannel, licenseStatus, partialProductKey, wmiEdition,
        allLicenses, previousInstallations, isFromExternalHive, hivePath, partialKeyMatch)
    }

    /** A new record: every optional field null, status Unknown, both lists empty, local machine. */
    constructor ()
      ensures State() == NewState(false, None)
    {
      installedKey := None;
      installedKeySource := None;
      legacyKey := None;
      edition := None;
      productId := None;
      buildNumber := None;
      editionId := None;
      compositionEditionId := None;
      installationType := None;
      registeredOwner := None;
      oemKey := None;
      licenseChannel := None;
      licenseStatus := Unknown;
      partialProductKey := None;
      wmiEdition := None;
      allLicenses := [];
      previousInstallations := [];
      isFromExternalHive := false;
      hivePath := None;
      partialKeyMatch := None;
    }
  }
}
