# WinKeyExtract core, modelled in Dafny

WinKeyExtract reads the Windows product key from the registry. The key is
stored as a `DigitalProductId` or `DigitalProductId4` binary blob. The tool
also reads license details from WMI's `SoftwareLicensingProduct` class.
This project models the decisions the tool makes on that data and proves
properties about them:

- **The key codec** (`KeyDecoder`).
  - A 15-byte window of the blob is read as one little-endian integer and
    divided by 24 in place, 25 times.
  - The remainders are spelled through the alphabet
    `BCDFGHJKMPQRTVWXY2346789`, grouped 5-5-5-5-5 with dashes, and checked by
    `IsValidKey`.
  - The Win8 layout keeps a flag in bit 3 of the window's last byte. When the
    flag is set, the marker letter `N` is inserted.
  - The decoders are methods over arrays with loop invariants. Each is proved
    equal to a function of the window: `Base24String`, `Win8String`,
    `FormatKey`.
  - The lemmas prove what those functions mean:
    - the digits are the value mod 24^25;
    - `FormatKey` and dash removal invert each other;
    - a Win8 string always validates.
  - So `DecodeKeyDpid4`'s fallback to the legacy layout at offset 808 is
    never taken (`Dpid4NeverFallsBack`).
- **The license-status enumeration** (`Models`): its display names, and the
  `WindowsKeyInfo` record. The record is a class whose fields the readers
  assign one by one.
- **The WMI reader** (`WmiKeyReader`): the first-row rule for the Windows
  license, the unchecked `(int)` cast with `Enum.IsDefined` normalisation,
  the check of the installed key's last five characters against the partial
  key, and the ApplicationId filter of the all-licenses listing. A query
  result is an input sequence of rows.
- **The registry reader** (`RegistryKeyReader`): the metadata copy, the
  build-number composition, the choice of the installed key between the two
  decoders, when the legacy key is kept beside it, and the `Source OS` subkey
  filter. Registry values are optional inputs.
- **The command line** (`Program`): the help test and `ParseHivePath`.

Supporting modules:

- `Base24`: the integer meaning of byte strings and base-24 expansions.
- `Bits`: `|`, `^`, `&`, shifts and the `(byte)` cast on naturals.
- `Text`: ordinal ignore-case comparison.
- `Wrappers`: `Option`. `None` stands for C#'s `null`.

## Model

| member | source | states |
|---|---|---|
| KeyDecoder.DigitsFacts | KeyDecoder.cs:13 | the alphabet has 24 symbols and contains neither 'N' nor '-' |
| KeyDecoder.DigitsNotLowerCase | KeyDecoder.cs:13 | no alphabet symbol is a lower-case ASCII letter |
| KeyDecoder.DigitsDistinct | KeyDecoder.cs:13 | the alphabet's symbols are pairwise distinct |
| KeyDecoder.DigitIndex | KeyDecoder.cs:158 | Array.IndexOf on the alphabet returns d for the d-th symbol |
| KeyDecoder.InsertAt | KeyDecoder.cs:82 | reference definition: String.Insert, defined only for an index within the string, where the library does not throw |
| KeyDecoder.Spell | KeyDecoder.cs:72 | reference definition: each base-24 digit spelled as the alphabet symbol at that index, as `chars[i] = Digits[acc]` does |
| KeyDecoder.IndexOf | KeyDecoder.cs:158 | the first position of the character, or -1 exactly when it is absent |
| KeyDecoder.LastIndexOf | KeyDecoder.cs:80 | the last position of the character, or -1 exactly when it is absent |
| KeyDecoder.ShiftOr | KeyDecoder.cs:109 | shifting acc up one byte and OR-ing in b equals acc*256 + b |
| KeyDecoder.TimesXor | KeyDecoder.cs:68 | `acc * 256 ^ b` equals acc*256 + b (multiplication binds tighter than XOR) |
| KeyDecoder.FlagBit | KeyDecoder.cs:58 | `(b >> 3) & 1` is bit 3 of the byte |
| KeyDecoder.ClearBit3 | KeyDecoder.cs:59 | subtracting bit 3 keeps the bits above and below it and leaves bit 3 clear |
| KeyDecoder.MaskFlag | KeyDecoder.cs:59 | for a flag of 0 or 1 the rewrite subtracts bit 3 and leaves it clear, whatever the flag |
| KeyDecoder.Base24String | KeyDecoder.cs:103-114 | reference definition: the 25 lowest base-24 digits of the window's value, most significant first, spelled through the alphabet |
| KeyDecoder.Masked | KeyDecoder.cs:58-59 | reference definition: the window with the flag rewrite applied to its last byte |
| KeyDecoder.InsertMarker | KeyDecoder.cs:80-82 | reference definition: drop the first character, then insert 'N' at the last index of that character in the undropped string |
| KeyDecoder.Win8String | KeyDecoder.cs:57-83 | reference definition: the base-24 string of the masked window, rewritten by InsertMarker when the flag bit was set |
| KeyDecoder.KeyCharOk | KeyDecoder.cs:150-159 | reference definition: a dash at every sixth position, the marker 'N' or an alphabet letter elsewhere |
| KeyDecoder.ValidKey | KeyDecoder.cs:143-164 | reference definition: 29 characters, each passing KeyCharOk at its position |
| KeyDecoder.LegacyKeyOf | KeyDecoder.cs:18-25 | reference definition: None for a null blob or one shorter than 67 bytes, else the formatted base-24 string of bytes 52..66 when it validates |
| KeyDecoder.Dpid4KeyOf | KeyDecoder.cs:30-43 | reference definition: None for a null blob or one shorter than 823 bytes, else the formatted Win8 string of bytes 808..822 when it validates, else the formatted legacy string of the same bytes when it validates |
| KeyDecoder.FormatKey | KeyDecoder.cs:127-138 | a string that is not 25 long comes back unchanged; a 25-character one gives 29 characters |
| KeyDecoder.FormatKeyLayout | KeyDecoder.cs:132-137 | the formatted key has a dash at 0-based positions 5, 11, 17 and 23, and the raw characters in order elsewhere |
| KeyDecoder.SpelledDigits | KeyDecoder.cs:104-114 | characters filled from index 24 down to 0 by successive remainders, read from index 0 to 24, spell the 25-digit expansion |
| KeyDecoder.CopyWindow | KeyDecoder.cs:100-101 | the fresh 15-byte array holds the window at the offset |
| KeyDecoder.CombineWith | KeyDecoder.cs:107-111 | both combinations of remainder and byte equal acc*256 + b |
| KeyDecoder.DivideBy24 | KeyDecoder.cs:106-112 | one pass divides the buffer's value by 24 in place and returns the remainder |
| KeyDecoder.SpellInPlace | KeyDecoder.cs:103-114 | the 25 passes spell the base-24 string of the buffer's initial value and leave in the buffer that value divided by 24^25 |
| KeyDecoder.DecodeKeyLegacy | KeyDecoder.cs:96-122 | the formatted base-24 string of the window; None exactly when the window does not fit (caught Array.Copy fault) |
| KeyDecoder.DecodeKeyWin8 | KeyDecoder.cs:49-91 | the formatted Win8 string of the window; None exactly when the window does not fit |
| KeyDecoder.IsValidKey | KeyDecoder.cs:143-164 | true exactly for a non-null well-formed key: 29 characters, dashes at 1-based positions 6, 12, 18, 24, alphabet letters or 'N' elsewhere |
| KeyDecoder.DecodeKey | KeyDecoder.cs:18-25 | the validated legacy decoding at offset 52; present exactly for a non-null blob of at least 67 bytes |
| KeyDecoder.DecodeKeyDpid4 | KeyDecoder.cs:30-43 | the Win8 decoding at offset 808, else the legacy one there, else None; present exactly for a non-null blob of at least 823 bytes |
| KeyDecoder.Base24StringShape | KeyDecoder.cs:103-116 | the legacy string has 25 characters, all from the alphabet |
| KeyDecoder.Base24StringDigits | KeyDecoder.cs:104-114 | read back through the alphabet, the legacy string is the 25 lowest base-24 digits of the window's value |
| KeyDecoder.Base24StringMeaning | KeyDecoder.cs:104-114 | those digits denote the window's value mod 24^25 |
| KeyDecoder.InsertMarkerShape | KeyDecoder.cs:78-83 | the rewrite keeps the length, puts 'N' at the found index, adds exactly one 'N', and removing it gives the string without its first character |
| KeyDecoder.InsertMarkerChars | KeyDecoder.cs:78-83 | every character after the rewrite is 'N' or one of the original characters after the first |
| KeyDecoder.Win8FlagClear | KeyDecoder.cs:57-75 | with the flag clear, the Win8 string is the legacy string of the same window |
| KeyDecoder.Win8FlagSet | KeyDecoder.cs:57-83 | with the flag set, the Win8 string is the 'N' rewrite of the legacy string of the window less 8 in its last byte |
| KeyDecoder.Win8StringShape | KeyDecoder.cs:49-85 | the Win8 string has 25 characters from the alphabet or 'N', and holds as many 'N's as the flag's value |
| KeyDecoder.FormatAccepts | KeyDecoder.cs:143-164 | a formatted 25-character string validates exactly when every character is from the alphabet or 'N' |
| KeyDecoder.ValidKeyNoLowerCase | KeyDecoder.cs:143-164 | a valid key holds no lower-case ASCII letter |
| KeyDecoder.LegacyKeyTotal | KeyDecoder.cs:18-25 | DecodeKey's result is present exactly for a long enough blob, and is then the formatted legacy string, which always validates |
| KeyDecoder.Dpid4NeverFallsBack | KeyDecoder.cs:30-43 | DecodeKeyDpid4's result is present exactly for a long enough blob, and is then always the Win8 decoding: the fallback is never taken |
| KeyDecoder.UnformatFormat | KeyDecoder.cs:127-138 | removing the dashes from a formatted dash-free 25-character string gives it back |
| KeyDecoder.ValidKeyIsFormatted | KeyDecoder.cs:127-164 | a valid key is FormatKey of its five dash-free groups |
| KeyDecoder.FormatUnformat | KeyDecoder.cs:127-164 | formatting the dash-free characters of a valid key gives the key back |
| KeyDecoder.ZeroWindow | KeyDecoder.cs:104-114 | an all-zero window spells 25 'B's |
| KeyDecoder.ZeroBlob | KeyDecoder.cs:18-25 | a 67-byte zero blob decodes to BBBBB-BBBBB-BBBBB-BBBBB-BBBBB |
| KeyDecoder.SpellOne | KeyDecoder.cs:104-114 | the value 1 spells 24 'B's and a 'C' |
| KeyDecoder.Win8Example | KeyDecoder.cs:57-83 | value 1 with the flag set decodes to 23 'B's, 'N', 'C' |
| Base24.Val | KeyDecoder.cs:104-112 | reference definition: the window read as the sum of key[j]*256^j, key[14] most significant, as the division loop from j = 14 down treats it |
| Base24.Expand | KeyDecoder.cs:104-113 | the expansion has n digits, each below 24 |
| Base24.DigitAt | KeyDecoder.cs:104-113 | digit k of the n-digit expansion is the remainder after n-1-k further divisions |
| Base24.ShiftIsDiv | KeyDecoder.cs:104-112 | n division passes divide the value by 24^n |
| Base24.ExpandValue | KeyDecoder.cs:104-114 | the n-digit expansion denotes the value mod 24^n |
| Bits.Or | KeyDecoder.cs:109 | reference definition: bitwise OR of two naturals, bit by bit from the lowest |
| Bits.Xor | KeyDecoder.cs:68 | reference definition: bitwise XOR of two naturals, bit by bit from the lowest |
| Bits.And | KeyDecoder.cs:58-59 | reference definition: bitwise AND of two naturals, bit by bit from the lowest |
| Bits.ShiftLeft | KeyDecoder.cs:59 | reference definition: `a << n` as multiplication by 2^n |
| Bits.ShiftRight | KeyDecoder.cs:58 | reference definition: `a >> n` as division by 2^n |
| Bits.ToByte | KeyDecoder.cs:110 | the `(byte)` cast keeps a value below 256 |
| Bits.OrDisjoint | KeyDecoder.cs:109 | OR with a value below 2^n adds it to a multiple of 2^n |
| Bits.XorDisjoint | KeyDecoder.cs:68 | XOR with a value below 2^n adds it to a multiple of 2^n |
| Bits.AndOne | KeyDecoder.cs:58 | `x & 1` is the lowest bit |
| Bits.AndF7 | KeyDecoder.cs:59 | `b & 0xF7` clears bit 3 of a byte and keeps the other bits |
| Models.IsDefined | WmiKeyReader.cs:57 | reference definition: Enum.IsDefined on LicenseStatus, true for -1 and 0 to 6 |
| Models.ToDisplayString | Models/LicenseStatus.cs:20-30 | the display name is "Unknown" exactly for Unknown and every unnamed value |
| Models.DisplayNamesDistinct | Models/LicenseStatus.cs:20-30 | the seven named statuses have pairwise different display names |
| Models.NewState | Models/WindowsKeyInfo.cs:9-43 | a new record has no keys, status Unknown, empty license and installation lists, and the origin its initializer sets |
| Models.WindowsKeyInfo.constructor | Models/WindowsKeyInfo.cs:6-44 | a new record holds those initial values for a local-machine read |
| Text.NonEmpty | WmiKeyReader.cs:63-64 | reference definition: `!string.IsNullOrEmpty`, also the test at RegistryKeyReader.cs line 69 |
| Text.EqualsIgnoreCase | WmiKeyReader.cs:67-68 | reference definition: string.Equals with OrdinalIgnoreCase, equal lengths and equal upper-cased characters |
| Text.StartsWithIgnoreCase | RegistryKeyReader.cs:142 | reference definition: StartsWith with OrdinalIgnoreCase, the prefix's length of the string equals the prefix ignoring case |
| Text.ToUpper | WmiKeyReader.cs:67-68 | ASCII lower-case letters map to upper case and every other character to itself |
| Text.EqualsIgnoreCaseUpper | RegistryKeyReader.cs:98-99 | without lower-case letters, ignore-case equality is plain equality |
| WmiKeyReader.ToInt32 | WmiKeyReader.cs:57 | the unchecked cast lands in the int range and agrees with the uint modulo 2^32 |
| WmiKeyReader.StatusOf | WmiKeyReader.cs:55-60 | codes 0 to 6 become the status with that value; every larger code becomes Unknown |
| WmiKeyReader.WrappedUnknown | WmiKeyReader.cs:57-59 | Enum.IsDefined accepts a cast code exactly for 0 to 6 and 0xFFFFFFFF, which wraps to Unknown's value -1 |
| WmiKeyReader.PartialKeyCheck | WmiKeyReader.cs:63-69 | when both keys are non-empty and the installed key has at least 5 characters, the verdict is whether its last 5 characters equal the partial key ignoring case; otherwise, including the caught `[^5..]` fault on a shorter key, the verdict keeps its value |
| WmiKeyReader.DecodedKeyChecked | WmiKeyReader.cs:63-69 | for a decoded key and a non-empty partial key there is always a verdict, true exactly when the key's last group matches ignoring case |
| WmiKeyReader.MatchMeansFiveCharacters | WmiKeyReader.cs:66-68 | a newly true verdict means the partial key has exactly 5 characters |
| WmiKeyReader.IsWindowsRow | WmiKeyReader.cs:96-100 | reference definition: the row's ApplicationId is non-null and equals the Windows AppId ignoring case |
| WmiKeyReader.LicenseOf | WmiKeyReader.cs:102-116 | the record carries the row's Name, Description, ApplicationId, PartialProductKey and channel; the status is normalised by StatusOf, or Unknown without a uint status |
| WmiKeyReader.OtherLicenses | WmiKeyReader.cs:94-119 | the filter never yields more records than rows |
| WmiKeyReader.OtherLicensesAppend | WmiKeyReader.cs:94-119 | the filter distributes over concatenation of query results |
| WmiKeyReader.NoWindowsLicense | WmiKeyReader.cs:98-100 | no kept record carries the Windows ApplicationId, ignoring case |
| WmiKeyReader.OtherRowKept | WmiKeyReader.cs:94-119 | every row that is not the Windows entry appears as its record |
| WmiKeyReader.NoWindowsRowKeepsAll | WmiKeyReader.cs:94-119 | a result without a Windows row is kept whole, in order |
| WmiKeyReader.AfterFirstRow | WmiKeyReader.cs:49-71 | reading the first row keeps the installed key and the license list, and stores the row's partial key |
| WmiKeyReader.StoreRow | WmiKeyReader.cs:51-60 | the edition (Name, else Description), partial key and channel are overwritten; the other fields are kept |
| WmiKeyReader.StoreStatus | WmiKeyReader.cs:55-60 | a uint status replaces the stored one after normalisation; without one nothing changes |
| WmiKeyReader.ValidatePartialKey | WmiKeyReader.cs:62-69 | only PartialKeyMatch changes, to the verdict of PartialKeyCheck |
| WmiKeyReader.PopulateLicenseInfo | WmiKeyReader.cs:39-78 | an empty result changes nothing; otherwise only the first row is used |
| WmiKeyReader.PopulateAllLicenses | WmiKeyReader.cs:85-125 | the non-Windows records are appended in query order and no other field changes |
| RegistryKeyReader.Coalesce | RegistryKeyReader.cs:64-65 | `a ?? b` |
| RegistryKeyReader.BuildNumberOf | RegistryKeyReader.cs:69-71 | CurrentBuild + "." + UBR when both are non-empty, otherwise CurrentBuild ?? the build-lab string; so None exactly when both of those are null, and CurrentBuild is always a prefix when present |
| RegistryKeyReader.EmptyCurrentBuildKept | RegistryKeyReader.cs:69-71 | an empty CurrentBuild is kept, not replaced by the build-lab string |
| RegistryKeyReader.InstalledKeyAfter | RegistryKeyReader.cs:86-95 | the DPID4 key wins, the legacy key is the fallback, otherwise the field keeps its value |
| RegistryKeyReader.InstalledSourceAfter | RegistryKeyReader.cs:86-95 | the source names the blob the installed key came from |
| RegistryKeyReader.LegacyKeyAfter | RegistryKeyReader.cs:97-102 | LegacyKey changes exactly to a legacy key that differs from the installed key, ignoring case |
| RegistryKeyReader.WithMetadata | RegistryKeyReader.cs:61-77 | the metadata step keeps the keys and stores the composed build number |
| RegistryKeyReader.WithKeys | RegistryKeyReader.cs:83-102 | the key step stores the selected installed key and the legacy key as LegacyKeyAfter says, and keeps the build number |
| RegistryKeyReader.NoLegacyKeyWithoutDpid4 | RegistryKeyReader.cs:91-102 | without a DPID4 key the legacy key is never stored separately |
| RegistryKeyReader.DecodedLegacyKeptWhenDifferent | RegistryKeyReader.cs:97-102 | for two decoded keys the legacy key is stored exactly when it differs from the DPID4 key |
| RegistryKeyReader.LongDpid4Wins | RegistryKeyReader.cs:80-90 | a DigitalProductId4 of at least 823 bytes always supplies the installed key, with source DigitalProductId4 |
| RegistryKeyReader.SelectedKeyValid | RegistryKeyReader.cs:80-95 | a stored installed key is always valid, and none is stored exactly when neither decoder yields one |
| RegistryKeyReader.BinaryValue | RegistryKeyReader.cs:80-81 | `as byte[]` gives a fresh array with the value's bytes, or null |
| RegistryKeyReader.StoreProduct | RegistryKeyReader.cs:61-71 | ProductName, ProductId and the composed build number are stored; the other fields are kept |
| RegistryKeyReader.StoreEditions | RegistryKeyReader.cs:74-77 | the four metadata values are stored as read; the other fields are kept |
| RegistryKeyReader.StoreMetadata | RegistryKeyReader.cs:61-77 | the state after the metadata step |
| RegistryKeyReader.StoreKeys | RegistryKeyReader.cs:86-102 | the state after the key selection |
| RegistryKeyReader.PopulateFromRegistryKey | RegistryKeyReader.cs:59-103 | the whole new state: metadata, build number, and the keys the two decoders give for the two blobs |
| RegistryKeyReader.FromRegistry | RegistryKeyReader.cs:59-103 | reference definition: the metadata step, then the key selection with DecodeKeyDpid4 of DigitalProductId4 and DecodeKey of DigitalProductId |
| RegistryKeyReader.IsSourceOs | RegistryKeyReader.cs:142-147 | reference definition: the subkey's name starts with "Source OS" ignoring case and the subkey opened |
| RegistryKeyReader.SnapshotOf | RegistryKeyReader.cs:149-158 | the snapshot is labelled with the subkey name and holds the legacy decoding of its DigitalProductId |
| RegistryKeyReader.PreviousOf | RegistryKeyReader.cs:140-161 | the filter never yields more snapshots than subkeys |
| RegistryKeyReader.PreviousOfAppend | RegistryKeyReader.cs:140-161 | the filter distributes over concatenation of subkey lists |
| RegistryKeyReader.PreviousSnapshotsWellFormed | RegistryKeyReader.cs:142-158 | every snapshot's label starts with "Source OS" ignoring case, and every product key in one is valid |
| RegistryKeyReader.OtherSubKeySkipped | RegistryKeyReader.cs:142-143 | a subkey not named "Source OS..." adds nothing |
| RegistryKeyReader.PopulatePreviousInstallations | RegistryKeyReader.cs:134-162 | the snapshots are appended in enumeration order and no other field changes |
| RegistryKeyReader.HiveReadKeepsOrigin | RegistryKeyReader.cs:35-48 | a hive read stays marked as external with its path, and records no previous installation |
| RegistryKeyReader.ReadLocal | RegistryKeyReader.cs:17-29 | a fresh record; left initial without the CurrentVersion key, otherwise filled from it plus the previous installations |
| RegistryKeyReader.ReadFromHive | RegistryKeyReader.cs:35-57 | a fresh record marked as external with the hive path, filled from the hive's CurrentVersion key when it opens |
| Program.IsHelpArg | Program.cs:13 | reference definition: the four help spellings "--help", "-h", "/?" and "help" |
| Program.WantsHelp | Program.cs:13 | reference definition: there is a first argument and it is a help spelling |
| Program.IsHiveFlag | Program.cs:92 | reference definition: the two hive spellings "--hive" and "-hive" |
| Program.HivePath | Program.cs:88-98 | reference definition: the argument after the first hive option that has an argument after it, or None |
| Program.HivePathMeaning | Program.cs:88-98 | the hive path is absent exactly when no argument before the last is a hive option, and otherwise follows the first one |
| Program.TrailingHiveFlagSkipped | Program.cs:92 | a hive option in the last position is ignored, not an error |
| Program.ParseHivePath | Program.cs:88-98 | the left-to-right scan returns the hive path the arguments name |
| Program.ExitCodeOf | Program.cs:13-17 | help alone fixes the exit code, and it is 0 |
| Program.Run | Program.cs:9-33 | help is chosen exactly when the first argument asks for it; otherwise the external hive when a path is named, else the local machine |

## Left out

- HiveLoader, PrivilegeManager and NativeMethods are out of scope: mounting a hive file and enabling privileges are Win32 calls with no logic to model.
- Registry and WMI access is not modelled: values and query results are inputs, and the queries' WHERE clauses are the WMI service's work.
- Output/ConsoleFormatter is not modelled: it is console output.
- WmiKeyReader.ReadOemKey is not modelled: it is a WMI read returning the first non-blank string.
- Office Click-to-Run is not modelled. This covers PopulateOfficeC2R, PopulateOfficeC2RFromKey and the OfficeC2RInfo record, which set only the OfficeC2R field, so that field is absent from the record too.
- ReadFromHive's registry paths under the mounted subkey name are I/O and are not modelled.
- PopulatePreviousInstallations: a missing SYSTEM\Setup key is the `None` case of ReadLocal's input; the method itself takes the subkey list.
- Program's WaitIfInteractive and ParentProcess are not modelled: they depend on the console and process state.
- RunLocal and RunExternalHive are not modelled: they are the I/O sequence after the dispatch.
- Run's catch-all handler, which returns 1, is not modelled: exceptions come only from the I/O paths left out.
- Text.ToUpper: ordinal ignore-case comparison is modelled on ASCII letters only. .NET also folds non-ASCII letters.
- RegistryKeyReader.CurrentVersionValues: UBR is a DWORD in the registry, and the model takes the text its ToString gives.
- WMI's `as string`, `is uint` and `?.ToString()` reads are modelled as optional values already of the right type.
- WmiKeyReader.PopulateAllLicenses: an exception partway through an enumeration, which would keep the records appended so far, is not modelled. PopulateLicenseInfo's catch is modelled only where the code itself can throw (the `[^5..]` slice).
- KeyDecoder.DecodeKeyWin8: the source comments speak of "the byte at offset 66" and "the high bit". The model follows the code, which reads bit 3 of the window's last byte, and the `(isWin8 & 2) << 2` term, which is always 0.
