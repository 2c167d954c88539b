/** Model of the enterprise-identifier (EID) behaviour that EIDHelperR4Test pins down.

    - getHapiEid picks the patient's identifiers whose system is the HAPI
      enterprise identifier system;
    - getExternalEid picks those whose system is the enterprise EID system
      configured in the EMPI rules;
    - both keep value and system, and turn the identifier's `use` into its
      lower-case code;
    - createHapiEid makes a fresh EID in the HAPI system whose value is a
      36-character UUID string and which has no `use`.

    The random bits of the UUID are an input (16 bytes).
 */
module EidHelper {
  import opened Wrappers
  import opened Strings

  /** HAPI_ENTERPRISE_IDENTIFIER_SYSTEM. */
  const HapiEnterpriseIdentifierSystem: string := "http://hapifhir.io/fhir/NamingSystem/empi-person-enterprise-id"

  /** FHIR R4 Identifier.use. */
  datatype IdentifierUse = Usual | Official | Temp | Secondary | Old

  /** The Java enum constant's name. */
  function UseName(use: IdentifierUse): string
  {
    match use
    case Usual => "USUAL"
    case Official => "OFFICIAL"
    case Temp => "TEMP"
    case Secondary => "SECONDARY"
    case Old => "OLD"
  }

  /** The FHIR code of a use, as carried into an EID. */
  function UseCode(use: IdentifierUse): string
  {
    match use
    case Usual => "usual"
    case Official => "official"
    case Temp => "temp"
    case Secondary => "secondary"
    case Old => "old"
  }

  /** A use's code is its enum name in lower case (SECONDARY becomes "secondary"),
      and distinct uses have distinct codes. */
  lemma UseCodeIsLowerCaseName(use: IdentifierUse, other: IdentifierUse)
    ensures UseCode(use) == ToLower(UseName(use))
    ensures UseCode(use) == UseCode(other) ==> use == other
  {
  }

  /** A FHIR identifier: an optional system, a value and an optional use. */
  datatype Identifier = Identifier(system: Option<string>, value: string, use: Option<IdentifierUse>)

  datatype Patient = Patient(identifiers: seq<Identifier>)

  /** CanonicalEID: system, value and the use as a code (None for no use). */
  datatype CanonicalEid = CanonicalEid(system: string, value: string, use: Option<string>)

  /** The part of the EMPI rules read here: the enterprise EID system for external EIDs. */
  datatype EmpiRules = EmpiRules(enterpriseEidSystem: string)

  /** An identifier of the given system as an EID. */
  function ToCanonicalEid(id: Identifier, system: string): CanonicalEid
  {
    CanonicalEid(system, id.value, match id.use case None => None case Some(u) => Some(UseCode(u)))
  }

  /** The identifiers of the given system, in order, as EIDs. */
  function EidsWithSystem(ids: seq<Identifier>, system: string): (eids: seq<CanonicalEid>)
    ensures |eids| <= |ids|
    ensures forall e :: e in eids ==> e.system == system
    ensures forall i :: 0 <= i < |ids| && ids[i].system == Some(system) ==> ToCanonicalEid(ids[i], system) in eids
    ensures forall e :: e in eids ==> exists i :: 0 <= i < |ids| && ids[i].system == Some(system) && e == ToCanonicalEid(ids[i], system)
  {
    if |ids| == 0 then []
    else
      var rest := EidsWithSystem(ids[1..], system);
      assert forall i :: 1 <= i < |ids| ==> ids[1..][i - 1] == ids[i];
      if ids[0].system == Some(system) then [ToCanonicalEid(ids[0], system)] + rest else rest
  }

  /** getHapiEid. */
  function GetHapiEid(patient: Patient): seq<CanonicalEid>
  {
    EidsWithSystem(patient.identifiers, HapiEnterpriseIdentifierSystem)
  }

  /** getExternalEid. */
  function GetExternalEid(rules: EmpiRules, patient: Patient): seq<CanonicalEid>
  {
    EidsWithSystem(patient.identifiers, rules.enterpriseEidSystem)
  }

  /** Extraction keeps the identifiers' order: it distributes over concatenation. */
  lemma {:induction false} EidsWithSystemAppend(a: seq<Identifier>, b: seq<Identifier>, system: string)
    ensures EidsWithSystem(a + b, system) == EidsWithSystem(a, system) + EidsWithSystem(b, system)
    decreases |a|
  {
    if |a| == 0 {
      assert a + b == b;
    } else {
      assert (a + b)[0] == a[0];
      assert (a + b)[1..] == a[1..] + b;
      EidsWithSystemAppend(a[1..], b, system);
    }
  }

  /** Extraction is empty exactly when no identifier has the system. */
  lemma EidsWithSystemEmpty(ids: seq<Identifier>, system: string)
    ensures EidsWithSystem(ids, system) == [] <==> forall i :: 0 <= i < |ids| ==> ids[i].system != Some(system)
  {
  }

  /** The first EID extracted is the first identifier with the system. */
  lemma {:induction false} FirstEid(ids: seq<Identifier>, system: string, i: nat)
    requires i < |ids| && ids[i].system == Some(system)
    requires forall j :: 0 <= j < i ==> ids[j].system != Some(system)
    ensures |EidsWithSystem(ids, system)| > 0
    ensures EidsWithSystem(ids, system)[0] == ToCanonicalEid(ids[i], system)
    decreases i
  {
    if i > 0 {
      assert ids[1..][i - 1] == ids[i];
      FirstEid(ids[1..], system, i - 1);
    }
  }

  /** A patient whose first identifier is in the HAPI system: its HAPI EID list is
      non-empty and starts with that identifier's value, the HAPI system and the use's code. */
  lemma HapiEidOfFirstIdentifier(id: Identifier, rest: seq<Identifier>)
    requires id.system == Some(HapiEnterpriseIdentifierSystem)
    ensures var eids := GetHapiEid(Patient([id] + rest));
      && |eids| > 0
      && eids[0].value == id.value
      && eids[0].system == HapiEnterpriseIdentifierSystem
      && eids[0].use == (match id.use case None => None case Some(u) => Some(UseCode(u)))
  {
  }

  /** testExtractionOfInternalEID. */
  lemma ExtractionOfInternalEid()
    ensures var eids := GetHapiEid(Patient([Identifier(Some(HapiEnterpriseIdentifierSystem), "simpletest", Some(Secondary))]));
      && |eids| > 0
      && eids[0].value == "simpletest"
      && eids[0].system == HapiEnterpriseIdentifierSystem
      && eids[0].use == Some("secondary")
  {
  }

  /** The external system configured by the test. */
  const TestExternalSystem: string := "http://testsystem.io/naming-system/empi"

  /** testExtractionOfExternalEID: an identifier of the configured system is
      extracted with its value and system; it is not a HAPI EID, since the two
      systems differ. */
  lemma ExtractionOfExternalEid()
    ensures TestExternalSystem != HapiEnterpriseIdentifierSystem
    ensures var patient := Patient([Identifier(Some(TestExternalSystem), "uniqueID!", None)]);
      var eids := GetExternalEid(EmpiRules(TestExternalSystem), patient);
      && |eids| > 0
      && eids[0].value == "uniqueID!"
      && eids[0].system == TestExternalSystem
      && eids[0].use == None
      && GetHapiEid(patient) == []
  {
  }

  // ---------------------------------------------------------------------------
  // createHapiEid
  // ---------------------------------------------------------------------------

  type Byte = b: int | 0 <= b < 256

  function HexDigit(n: nat): char
    requires n < 16
  {
    if n < 10 then ('0' as int + n) as char else ('a' as int + n - 10) as char
  }

  /** Two lower-case hex digits per byte, high nibble first. */
  function HexBytes(bytes: seq<Byte>): (s: string)
    ensures |s| == 2 * |bytes|
  {
    if |bytes| == 0 then ""
    else [HexDigit(bytes[0] / 16), HexDigit(bytes[0] % 16)] + HexBytes(bytes[1..])
  }

  lemma HexDigitInjective(a: nat, b: nat)
    requires a < 16 && b < 16 && HexDigit(a) == HexDigit(b)
    ensures a == b
  {
  }

  /** Different bytes give different hex text. */
  lemma {:induction false} HexBytesInjective(a: seq<Byte>, b: seq<Byte>)
    requires |a| == |b| && HexBytes(a) == HexBytes(b)
    ensures a == b
    decreases |a|
  {
    if |a| > 0 {
      var ha, hb := HexBytes(a), HexBytes(b);
      assert ha[0] == hb[0] && ha[1] == hb[1];
      HexDigitInjective(a[0] / 16, b[0] / 16);
      HexDigitInjective(a[0] % 16, b[0] % 16);
      assert ha[2..] == HexBytes(a[1..]) && hb[2..] == HexBytes(b[1..]);
      HexBytesInjective(a[1..], b[1..]);
      assert a == [a[0]] + a[1..] && b == [b[0]] + b[1..];
    }
  }

  /** The canonical 8-4-4-4-12 text of 16 bytes. */
  function UuidString(bytes: seq<Byte>): (s: string)
    requires |bytes| == 16
    ensures |s| == 36
    ensures s[8] == '-' && s[13] == '-' && s[18] == '-' && s[23] == '-'
  {
    HexBytes(bytes[..4]) + "-" + HexBytes(bytes[4..6]) + "-" + HexBytes(bytes[6..8]) + "-"
      + HexBytes(bytes[8..10]) + "-" + HexBytes(bytes[10..])
  }

  /** Different random bytes give different UUID strings. */
  lemma UuidStringInjective(a: seq<Byte>, b: seq<Byte>)
    requires |a| == 16 && |b| == 16 && UuidString(a) == UuidString(b)
    ensures a == b
  {
    var s := UuidString(a);
    assert s[..8] == HexBytes(a[..4]) && s[..8] == HexBytes(b[..4]);
    assert s[9..13] == HexBytes(a[4..6]) && s[9..13] == HexBytes(b[4..6]);
    assert s[14..18] == HexBytes(a[6..8]) && s[14..18] == HexBytes(b[6..8]);
    assert s[19..23] == HexBytes(a[8..10]) && s[19..23] == HexBytes(b[8..10]);
    assert s[24..] == HexBytes(a[10..]) && s[24..] == HexBytes(b[10..]);
    HexBytesInjective(a[..4], b[..4]);
    HexBytesInjective(a[4..6], b[4..6]);
    HexBytesInjective(a[6..8], b[6..8]);
    HexBytesInjective(a[8..10], b[8..10]);
    HexBytesInjective(a[10..], b[10..]);
    assert a == a[..4] + a[4..6] + a[6..8] + a[8..10] + a[10..];
    assert b == b[..4] + b[4..6] + b[6..8] + b[8..10] + b[10..];
  }

  /** createHapiEid: an EID in the HAPI system, a 36-character UUID value, no use. */
  function CreateHapiEid(random: seq<Byte>): (eid: CanonicalEid)
    requires |random| == 16
    ensures eid.system == HapiEnterpriseIdentifierSystem
    ensures |eid.value| == 36
    ensures eid.use == None
  {
    CanonicalEid(HapiEnterpriseIdentifierSystem, UuidString(random), None)
  }

  /** Two creations from different random bytes give different EIDs. */
  lemma CreateHapiEidDistinct(a: seq<Byte>, b: seq<Byte>)
    requires |a| == 16 && |b| == 16 && a != b
    ensures CreateHapiEid(a).value != CreateHapiEid(b).value
  {
    if CreateHapiEid(a).value == CreateHapiEid(b).value {
      UuidStringInjective(a, b);
    }
  }
}
