/**
 * The decisions RegistryKeyReader makes on the values of the
 * `Windows NT\CurrentVersion` key and of the `SYSTEM\Setup` subkeys: the build
 * number it composes, which decoded key becomes the installed key, when the
 * legacy key is kept beside it, and which setup subkeys are previous
 * installations. Each registry value is an input; a value read `as string`
 * or `as byte[]` is None when it is missing or of another type.
 */
module RegistryKeyReader {
  import opened Wrappers
  import opened Base24
  import opened Text
  import opened Models
  import opened KeyDecoder

  /** The values PopulateFromRegistryKey reads from the CurrentVersion key; `ubr` is the text `GetValue("UBR")?.ToString()` gives. */
  datatype CurrentVersionValues = CurrentVersionValues(
    productName: Option<string>,
    productId: Option<string>,
    buildLabEx: Option<string>,
    buildLab: Option<string>,
    currentBuild: Option<string>,
    ubr: Option<string>,
    editionId: Option<string>,
    compositionEditionId: Option<string>,
    installationType: Option<string>,
    registeredOwner: Option<string>,
    digitalProductId4: Option<seq<byte>>,
    digitalProductId: Option<seq<byte>>)

  /** The values read from one `Source OS` snapshot key. */
  datatype SourceOsValues = SourceOsValues(
    productName: Option<string>,
    editionId: Option<string>,
    currentBuild: Option<string>,
    digitalProductId: Option<seq<byte>>)

  /** A subkey of SYSTEM\Setup: its name, and its values unless OpenSubKey returned null. */
  datatype SetupSubKey = SetupSubKey(name: string, values: Option<SourceOsValues>)

  const Dpid4Source: string := "DigitalProductId4"
  const LegacySource: string := "DigitalProductId"
  const SourceOsPrefix: string := "Source OS"

  /** The null-coalescing `a ?? b`. */
  function Coalesce(a: Option<string>, b: Option<string>): (r: Option<string>)
    ensures a.Some? ==> r == a
    ensures a.None? ==> r == b
  {
    if a.Some? then a else b
  }

  /** The BuildNumber composed from CurrentBuild, UBR and the build-lab string. */
  function BuildNumberOf(currentBuild: Option<string>, ubr: Option<string>, buildLab: Option<string>): (r: Option<string>)
    ensures r.None? <==> currentBuild.None? && buildLab.None?
    ensures currentBuild.None? ==> r == buildLab
    ensures currentBuild.Some? ==> r.Some? && currentBuild.value <= r.value
    ensures currentBuild.Some? && r.value != currentBuild.value ==>
      NonEmpty(currentBuild) && NonEmpty(ubr) && r.value[|currentBuild.value|..] == "." + ubr.value
    ensures NonEmpty(currentBuild) && NonEmpty(ubr) ==> r == Some(currentBuild.value + "." + ubr.value)
    ensures !(NonEmpty(currentBuild) && NonEmpty(ubr)) ==> r == Coalesce(currentBuild, buildLab)
  {
    if NonEmpty(currentBuild) && NonEmpty(ubr) then
      var composed := currentBuild.value + "." + ubr.value;
      assert composed[..|currentBuild.value|] == currentBuild.value;
      assert composed[|currentBuild.value|..] == "." + ubr.value;
      Some(composed)
    else Coalesce(currentBuild, buildLab)
  }

  /** An empty CurrentBuild is kept as it is, not replaced by the build-lab string. */
  lemma EmptyCurrentBuildKept(ubr: Option<string>, buildLab: Option<string>)
    ensures BuildNumberOf(Some(""), ubr, buildLab) == Some("")
  {
  }

  /** The installed key after the selection: the DPID4 key when there is one, else the legacy key, else what was there. */
  function InstalledKeyAfter(current: Option<string>, key4: Option<string>, keyLegacy: Option<string>): (r: Option<string>)
    ensures key4.Some? ==> r == key4
    ensures key4.None? && keyLegacy.Some? ==> r == keyLegacy
    ensures key4.None? && keyLegacy.None? ==> r == current
  {
    if key4.Some? then key4 else if keyLegacy.Some? then keyLegacy else current
  }

  /** The installed-key source after the selection, following the same choice. */
  function InstalledSourceAfter(current: Option<string>, key4: Option<string>, keyLegacy: Option<string>): (r: Option<string>)
    ensures key4.Some? ==> r == Some(Dpid4Source)
    ensures key4.None? && keyLegacy.Some? ==> r == Some(LegacySource)
    ensures key4.None? && keyLegacy.None? ==> r == current
  {
    if key4.Some? then Some(Dpid4Source) else if keyLegacy.Some? then Some(LegacySource) else current
  }

  /** LegacyKey after the selection: the legacy key when it is present and differs, ignoring case, from the installed key; otherwise unchanged. */
  function LegacyKeyAfter(current: Option<string>, installed: Option<string>, keyLegacy: Option<string>): (r: Option<string>)
    ensures r != current ==> r == keyLegacy && keyLegacy.Some? && installed.Some? && !EqualsIgnoreCase(keyLegacy.value, installed.value)
    ensures keyLegacy.Some? && installed.Some? && !EqualsIgnoreCase(keyLegacy.value, installed.value) ==> r == keyLegacy
  {
    if keyLegacy.Some? && installed.Some? && !EqualsIgnoreCase(keyLegacy.value, installed.value) then keyLegacy else current
  }

  /** The record after the metadata values are copied and the build number composed. */
  function WithMetadata(st: KeyInfoState, v: CurrentVersionValues): (r: KeyInfoState)
    ensures r.installedKey == st.installedKey && r.legacyKey == st.legacyKey
    ensures r.buildNumber == BuildNumberOf(v.currentBuild, v.ubr, Coalesce(v.buildLabEx, v.buildLab))
  {
    st.(
      edition := v.productName,
      productId := v.productId,
      buildNumber := BuildNumberOf(v.currentBuild, v.ubr, Coalesce(v.buildLabEx, v.buildLab)),
      editionId := v.editionId,
      compositionEditionId := v.compositionEditionId,
      installationType := v.installationType,
      registeredOwner := v.registeredOwner)
  }

  /** The record after the key selection, given the keys the two decoders returned. */
  function WithKeys(st: KeyInfoState, key4: Option<string>, keyLegacy: Option<string>): (r: KeyInfoState)
    ensures r.installedKey == InstalledKeyAfter(st.installedKey, key4, keyLegacy)
    ensures r.legacyKey == LegacyKeyAfter(st.legacyKey, r.installedKey, keyLegacy)
    ensures r.buildNumber == st.buildNumber
  {
    var installed := InstalledKeyAfter(st.installedKey, key4, keyLegacy);
    st.(
      installedKey := installed,
      installedKeySource := InstalledSourceAfter(st.installedKeySource, key4, keyLegacy),
      legacyKey := LegacyKeyAfter(st.legacyKey, installed, keyLegacy))
  }

  /** What PopulateFromRegistryKey leaves in the record: the decoders are applied to the two blobs. */
  function FromRegistry(st: KeyInfoState, v: CurrentVersionValues): KeyInfoState
  {
    WithKeys(WithMetadata(st, v), Dpid4KeyOf(v.digitalProductId4), LegacyKeyOf(v.digitalProductId))
  }

  /** Without a DPID4 key the legacy key is never stored separately: it is the installed key itself. */
  lemma NoLegacyKeyWithoutDpid4(current: Option<string>, installed: Option<string>, keyLegacy: Option<string>)
    ensures LegacyKeyAfter(current, InstalledKeyAfter(installed, None, keyLegacy), keyLegacy) == current
  {
    if keyLegacy.Some? {
      assert EqualsIgnoreCase(keyLegacy.value, keyLegacy.value);
    }
  }

  /** For two keys as the decoders emit them, ignoring case changes nothing: the legacy key is stored exactly when it differs from the DPID4 key. */
  lemma DecodedLegacyKeptWhenDifferent(current: Option<string>, key4: string, keyLegacy: string)
    requires ValidKey(key4) && ValidKey(keyLegacy)
    ensures LegacyKeyAfter(current, Some(key4), Some(keyLegacy)) == if keyLegacy != key4 then Some(keyLegacy) else current
  {
    ValidKeyNoLowerCase(key4);
    ValidKeyNoLowerCase(keyLegacy);
    EqualsIgnoreCaseUpper(keyLegacy, key4);
  }

  /** A DigitalProductId4 blob of at least 823 bytes always supplies the installed key: the Win8 decoding of its window, with source DigitalProductId4. */
  lemma LongDpid4Wins(st: KeyInfoState, v: CurrentVersionValues)
    requires v.digitalProductId4.Some? && |v.digitalProductId4.value| >= Dpid4KeyOffset + KeyLength
    ensures FromRegistry(st, v).installedKey ==
      Some(FormatKey(Win8String(v.digitalProductId4.value[Dpid4KeyOffset..Dpid4KeyOffset + KeyLength])))
    ensures FromRegistry(st, v).installedKeySource == Some(Dpid4Source)
  {
    Dpid4NeverFallsBack(v.digitalProductId4);
  }

  /** Whatever the blobs hold, an installed key the selection stores is a valid key. */
  lemma SelectedKeyValid(st: KeyInfoState, v: CurrentVersionValues)
    requires st.installedKey.None?
    ensures FromRegistry(st, v).installedKey.Some? ==> ValidKey(FromRegistry(st, v).installedKey.value)
    ensures FromRegistry(st, v).installedKey.None? <==>
      Dpid4KeyOf(v.digitalProductId4).None? && LegacyKeyOf(v.digitalProductId).None?
  {
    var key4 := Dpid4KeyOf(v.digitalProductId4);
    var keyLegacy := LegacyKeyOf(v.digitalProductId);
    if key4.Some? {
      Dpid4NeverFallsBack(v.digitalProductId4);
      var window := v.digitalProductId4.value[Dpid4KeyOffset..Dpid4KeyOffset + KeyLength];
      Win8StringShape(window);
      FormatAccepts(Win8String(window));
    } else if keyLegacy.Some? {
      LegacyKeyTotal(v.digitalProductId);
      var window := v.digitalProductId.value[LegacyKeyOffset..LegacyKeyOffset + KeyLength];
      Base24StringShape(window);
      FormatAccepts(Base24String(window));
    }
  }

  /** `GetValue(name) as byte[]`: a fresh array holding the value's bytes, or null. */
  method BinaryValue(v: Option<seq<byte>>) returns (a: array?<byte>)
    ensures BlobOf(a) == v
    ensures a != null ==> fresh(a)
  {
    if v.None? {
      return null;
    }
    var bytes := v.value;
    a := new byte[|bytes|](i requires 0 <= i < |bytes| => bytes[i]);
    assert a[..] == bytes;
  }

  /** ProductName, ProductId and the composed build number. */
  method StoreProduct(v: CurrentVersionValues, info: WindowsKeyInfo)
    modifies info
    ensures info.State() == old(info.State()).(
      edition := v.productName,
      productId := v.productId,
      buildNumber := BuildNumberOf(v.currentBuild, v.ubr, Coalesce(v.buildLabEx, v.buildLab)))
  {
    info.edition := v.productName;
    info.productId := v.productId;
    var buildLab := Coalesce(v.buildLabEx, v.buildLab);
    var currentBuild := v.currentBuild;
    var ubr := v.ubr;
    info.buildNumber := if NonEmpty(currentBuild) && NonEmpty(ubr) then Some(currentBuild.value + "." + ubr.value)
      else Coalesce(currentBuild, buildLab);
  }

  /** The additional metadata values, copied as they are. */
  method StoreEditions(v: CurrentVersionValues, info: WindowsKeyInfo)
    modifies info
    ensures info.State() == old(info.State()).(
      editionId := v.editionId,
      compositionEditionId := v.compositionEditionId,
      installationType := v.installationType,
      registeredOwner := v.registeredOwner)
  {
    info.editionId := v.editionId;
    info.compositionEditionId := v.compositionEditionId;
    info.installationType := v.installationType;
    info.registeredOwner := v.registeredOwner;
  }

  /** The first part of PopulateFromRegistryKey: the metadata values and the build number. */
  method StoreMetadata(v: CurrentVersionValues, info: WindowsKeyInfo)
    modifies info
    ensures info.State() == WithMetadata(old(info.State()), v)
  {
    StoreProduct(v, info);
    StoreEditions(v, info);
  }

  /** The last part of PopulateFromRegistryKey: the DPID4 key wins, the legacy key is the fallback, and it is kept separately when it differs. */
  method StoreKeys(info: WindowsKeyInfo, key4: Option<string>, keyLegacy: Option<string>)
    modifies info
    ensures info.State() == WithKeys(old(info.State()), key4, keyLegacy)
  {
    if key4.Some? {
      info.installedKey := key4;
      info.installedKeySource := Some(Dpid4Source);
    } else if keyLegacy.Some? {
      info.installedKey := keyLegacy;
      info.installedKeySource := Some(LegacySource);
    }

    if keyLegacy.Some? && info.installedKey.Some? && !EqualsIgnoreCase(keyLegacy.value, info.installedKey.value) {
      info.legacyKey := keyLegacy;
    }
  }

  /** PopulateFromRegistryKey: copies the metadata values, composes the build number, decodes both blobs and selects the installed key. */
  method PopulateFromRegistryKey(v: CurrentVersionValues, info: WindowsKeyInfo)
    modifies info
    ensures info.State() == FromRegistry(old(info.State()), v)
  {
    StoreMetadata(v, info);
    var dpid4 := BinaryValue(v.digitalProductId4);
    var dpid := BinaryValue(v.digitalProductId);
    var key4 := DecodeKeyDpid4(dpid4);
    var keyLegacy := DecodeKey(dpid);
    StoreKeys(info, key4, keyLegacy);
  }

  /** The snapshot built from one `Source OS` key: its name as the label and the legacy decoding of its DigitalProductId. */
  function SnapshotOf(name: string, v: SourceOsValues): (p: PreviousOsInfo)
    ensures p.sourceLabel == Some(name) && p.productKey == LegacyKeyOf(v.digitalProductId)
  {
    PreviousOsInfo(Some(name), v.productName, v.editionId, v.currentBuild, LegacyKeyOf(v.digitalProductId))
  }

  /** The subkey is a previous installation: its name starts with "Source OS" ignoring case and it could be opened. */
  predicate IsSourceOs(k: SetupSubKey)
  {
    StartsWithIgnoreCase(k.name, SourceOsPrefix) && k.values.Some?
  }

  /** The snapshots PopulatePreviousInstallations appends, in enumeration order. */
  function PreviousOf(subKeys: seq<SetupSubKey>): (ps: seq<PreviousOsInfo>)
    ensures |ps| <= |subKeys|
  {
    if |subKeys| == 0 then []
    else
      var last := subKeys[|subKeys| - 1];
      PreviousOf(subKeys[..|subKeys| - 1]) + (if IsSourceOs(last) then [SnapshotOf(last.name, last.values.value)] else [])
  }

  /** The subkeys are handled one at a time, in order. */
  lemma {:induction false} PreviousOfAppend(a: seq<SetupSubKey>, b: seq<SetupSubKey>)
    ensures PreviousOf(a + b) == PreviousOf(a) + PreviousOf(b)
  {
    if |b| == 0 {
      assert a + b == a;
    } else {
      assert (a + b)[..|a + b| - 1] == a + b[..|b| - 1];
      PreviousOfAppend(a, b[..|b| - 1]);
    }
  }

  /** Every snapshot is labelled with a name starting with "Source OS" (ignoring case), and every product key in it is a valid key. */
  lemma {:induction false} PreviousSnapshotsWellFormed(subKeys: seq<SetupSubKey>)
    ensures forall p :: p in PreviousOf(subKeys) ==>
      p.sourceLabel.Some? && StartsWithIgnoreCase(p.sourceLabel.value, SourceOsPrefix)
    ensures forall p :: p in PreviousOf(subKeys) && p.productKey.Some? ==> ValidKey(p.productKey.value)
  {
    if |subKeys| > 0 {
      var last := subKeys[|subKeys| - 1];
      PreviousSnapshotsWellFormed(subKeys[..|subKeys| - 1]);
      if IsSourceOs(last) {
        var blob := last.values.value.digitalProductId;
        LegacyKeyTotal(blob);
        if LegacyKeyOf(blob).Some? {
          var window := blob.value[LegacyKeyOffset..LegacyKeyOffset + KeyLength];
          Base24StringShape(window);
          FormatAccepts(Base24String(window));
        }
      }
    }
  }

  /** A subkey whose name does not start with "Source OS" adds nothing. */
  lemma OtherSubKeySkipped(subKeys: seq<SetupSubKey>, k: SetupSubKey)
    requires !StartsWithIgnoreCase(k.name, SourceOsPrefix)
    ensures PreviousOf(subKeys + [k]) == PreviousOf(subKeys)
  {
    assert (subKeys + [k])[..|subKeys|] == subKeys;
  }

  /** PopulatePreviousInstallations over the subkeys of SYSTEM\Setup, in enumeration order; no other field changes. */
  method PopulatePreviousInstallations(info: WindowsKeyInfo, subKeys: seq<SetupSubKey>)
    modifies info
    ensures info.State() == old(info.State()).(previousInstallations := old(info.previousInstallations) + PreviousOf(subKeys))
  {
    var i := 0;
    while i < |subKeys|
      invariant 0 <= i <= |subKeys|
      invariant info.State() == old(info.State()).(previousInstallations := old(info.previousInstallations) + PreviousOf(subKeys[..i]))
    {
      var subKey := subKeys[i];
      assert subKeys[..i + 1][..i] == subKeys[..i];
      if !StartsWithIgnoreCase(subKey.name, SourceOsPrefix) {
        i := i + 1;
        continue;
      }
      if subKey.values.None? {
        i := i + 1;
        continue;
      }
      var sourceKey := subKey.values.value;
      var dpid := BinaryValue(sourceKey.digitalProductId);
      var productKey := DecodeKey(dpid);
      var prev := PreviousOsInfo(Some(subKey.name), sourceKey.productName, sourceKey.editionId, sourceKey.currentBuild, productKey);
      info.previousInstallations := info.previousInstallations + [prev];
      i := i + 1;
    }
    assert subKeys[..i] == subKeys;
  }

  /** A hive read keeps its origin, whatever the CurrentVersion values, and records no previous installation. */
  lemma HiveReadKeepsOrigin(hivePath: string, v: CurrentVersionValues)
    ensures FromRegistry(NewState(true, Some(hivePath)), v).isFromExternalHive
    ensures FromRegistry(NewState(true, Some(hivePath)), v).hivePath == Some(hivePath)
    ensures FromRegistry(NewState(true, Some(hivePath)), v).previousInstallations == []
  {
  }

  /**
   * ReadLocal on the local registry: `current` holds the CurrentVersion values
   * unless that key could not be opened, `setup` the subkeys of SYSTEM\Setup
   * unless that key could not be opened. The Office Click-to-Run step sets
   * only OfficeC2R, which is not part of this model.
   */
  method ReadLocal(current: Option<CurrentVersionValues>, setup: Option<seq<SetupSubKey>>) returns (info: WindowsKeyInfo)
    ensures fresh(info)
    ensures current.None? ==> info.State() == NewState(false, None)
    ensures current.Some? ==>
      info.State() == FromRegistry(NewState(false, None), current.value).(previousInstallations := if setup.Some? then PreviousOf(setup.value) else [])
  {
    info := new WindowsKeyInfo();
    if current.None? {
      return;
    }
    PopulateFromRegistryKey(current.value, info);
    if setup.Some? {
      PopulatePreviousInstallations(info, setup.value);
    }
  }

  /** ReadFromHive on a mounted hive: `current` holds its CurrentVersion values unless that key could not be opened. Previous installations are not read from a hive. */
  method ReadFromHive(hivePath: string, current: Option<CurrentVersionValues>) returns (info: WindowsKeyInfo)
    ensures fresh(info)
    ensures current.None? ==> info.State() == NewState(true, Some(hivePath))
    ensures current.Some? ==> info.State() == FromRegistry(NewState(true, Some(hivePath)), current.value)
  {
    info := new WindowsKeyInfo();
    info.isFromExternalHive := true;
    info.hivePath := Some(hivePath);
    if current.None? {
      return;
    }
    PopulateFromRegistryKey(current.value, info);
  }
}
