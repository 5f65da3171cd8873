/** The policy value model of an ADMX administrative template: the registry
    scope of a policy and the PowerShell drives it maps to, the tagged
    values a policy writes, the lists of registry entries, and the
    aggregate that holds one policy's enabled/disabled values and lists. */
module AdmxPolicy {
  import opened Wrappers
  import DecimalText

  // ---------------------------------------------------------------------
  // Registry scope

  /** A `[Flags]` enum whose underlying type is a 32-bit int: every int
      value is a possible scope, not only the four named ones. */
  newtype RegistryTypes = x: int | -0x8000_0000 <= x < 0x8000_0000 {
    static const Unknown: RegistryTypes := 0
    static const LocalMachine: RegistryTypes := 1
    static const CurrentUser: RegistryTypes := 2
    static const Both: RegistryTypes := LocalMachine + CurrentUser
  }

  const MachineDrive := "HKLM:"
  const UserDrive := "HKCU:"

  /** A policy definition; only the scope and the drives derived from it
      are modelled. The scope is a settable property. */
  class PolicyInfo {
    var registryType: RegistryTypes

    constructor ()
      ensures registryType == RegistryTypes.Unknown
      ensures RegistryDrives() == [""]
    {
      registryType := RegistryTypes.Unknown;
    }

    /** The PowerShell registry drives the policy lives under: machine
        before user, a single placeholder "" for any scope other than the
        three named non-empty ones, so index 0 always exists. */
    function RegistryDrives(): (drives: seq<string>)
      reads this
      ensures 1 <= |drives| <= 2
      ensures registryType == RegistryTypes.LocalMachine ==> drives == [MachineDrive]
      ensures registryType == RegistryTypes.CurrentUser ==> drives == [UserDrive]
      ensures registryType == RegistryTypes.Both ==> drives == [MachineDrive, UserDrive]
      ensures registryType !in {RegistryTypes.LocalMachine, RegistryTypes.CurrentUser, RegistryTypes.Both} ==>
                drives == [""]
      ensures |drives| == 2 <==> registryType == RegistryTypes.Both
      ensures drives[0] != "" <==> 0 < registryType <= RegistryTypes.Both
    {
      if registryType == RegistryTypes.LocalMachine then [MachineDrive]
      else if registryType == RegistryTypes.CurrentUser then [UserDrive]
      else if registryType == RegistryTypes.Both then [MachineDrive, UserDrive]
      else [""]
    }
  }

  /** Drives read as flags: when the scope is a non-empty combination of
      the two defined flags, each set flag contributes its drive, machine
      first; any other value, including Unknown and values carrying
      undefined bits (5 = LocalMachine | 4), gets the placeholder only. */
  lemma RegistryDrivesByFlags(p: PolicyInfo)
    ensures var t := p.registryType as int;
      p.RegistryDrives() ==
        if 0 < t < 4 then
          (if t % 2 == 1 then [MachineDrive] else []) + (if t / 2 % 2 == 1 then [UserDrive] else [])
        else [""]
  {
  }

  // ---------------------------------------------------------------------
  // Values

  datatype ValueTypes = Unknown | Delete | Decimal | LongDecimal | String

  newtype UInt32 = x: int | 0 <= x < 0x1_0000_0000
  newtype UInt64 = x: int | 0 <= x < 0x1_0000_0000_0000_0000

  /** The runtime payload of a value: null, or one of the boxed kinds the
      tags describe. The tag and the payload are stored independently, so
      a mismatched pair can be built, as in the source. */
  datatype Payload = Null | UInt32Value(n: UInt32) | UInt64Value(m: UInt64) | Text(s: string)

  /** Payloads whose shape matches the tag: none for Unknown and Delete, a
      32-bit unsigned number for Decimal, a 64-bit one for LongDecimal, a
      string for String. */
  predicate WellTyped(t: ValueTypes, v: Payload) {
    match t
    case Unknown => v.Null?
    case Delete => v.Null?
    case Decimal => v.UInt32Value?
    case LongDecimal => v.UInt64Value?
    case String => v.Text?
  }

  /** The enum member's name, as .NET formats an enum. */
  function TypeName(t: ValueTypes): string {
    match t
    case Unknown => "Unknown"
    case Delete => "Delete"
    case Decimal => "Decimal"
    case LongDecimal => "LongDecimal"
    case String => "String"
  }

  /** The payload's text; null formats as the empty string. */
  function PayloadText(v: Payload): string {
    match v
    case Null => ""
    case UInt32Value(n) => DecimalText.FromNat(n as nat)
    case UInt64Value(m) => DecimalText.FromNat(m as nat)
    case Text(s) => s
  }

  const Separator := " : "

  /** The format "{0} : {1}" applied to a tag and a payload. */
  function Render(t: ValueTypes, v: Payload): string {
    TypeName(t) + Separator + PayloadText(v)
  }

  /** An immutable tagged value: set once by the constructor, no setters. */
  class ValueDefinition {
    const valueType: ValueTypes
    const value: Payload

    constructor (valueType: ValueTypes, value: Payload)
      ensures this.valueType == valueType && this.value == value
    {
      this.valueType := valueType;
      this.value := value;
    }

    /** The tag, " : ", then the payload; for a well-typed value the text
        determines the value. */
    function ToString(): (s: string)
      ensures s == TypeName(valueType) + Separator + PayloadText(value)
      ensures WellTyped(valueType, value) ==> ParseValueDefinition(s) == Some((valueType, value))
    {
      if WellTyped(valueType, value) then
        ParseRender(valueType, value);
        Render(valueType, value)
      else
        Render(valueType, value)
    }
  }

  /** The inverse of Render: the tag named before " : " and the payload
      that the rest spells for that tag. */
  function ParseValueDefinition(s: string): Option<(ValueTypes, Payload)> {
    match SplitTypeName(s)
    case None => None
    case Some((t, rest)) =>
      match ParsePayload(t, rest)
      case None => None
      case Some(v) => Some((t, v))
  }

  function SplitTypeName(s: string): Option<(ValueTypes, string)> {
    if StartsWith(s, TypeName(Unknown) + Separator) then Some((Unknown, s[|TypeName(Unknown) + Separator|..]))
    else if StartsWith(s, TypeName(Delete) + Separator) then Some((Delete, s[|TypeName(Delete) + Separator|..]))
    else if StartsWith(s, TypeName(Decimal) + Separator) then Some((Decimal, s[|TypeName(Decimal) + Separator|..]))
    else if StartsWith(s, TypeName(LongDecimal) + Separator) then Some((LongDecimal, s[|TypeName(LongDecimal) + Separator|..]))
    else if StartsWith(s, TypeName(String) + Separator) then Some((String, s[|TypeName(String) + Separator|..]))
    else None
  }

  predicate StartsWith(s: string, prefix: string) {
    |prefix| <= |s| && s[..|prefix|] == prefix
  }

  function ParsePayload(t: ValueTypes, text: string): Option<Payload> {
    match t
    case Unknown => if text == "" then Some(Null) else None
    case Delete => if text == "" then Some(Null) else None
    case Decimal =>
      (match DecimalText.Parse(text)
       case Some(n) => if n < 0x1_0000_0000 then Some(UInt32Value(n as UInt32)) else None
       case None => None)
    case LongDecimal =>
      (match DecimalText.Parse(text)
       case Some(m) => if m < 0x1_0000_0000_0000_0000 then Some(UInt64Value(m as UInt64)) else None
       case None => None)
    case String => Some(Text(text))
  }

  /** The first characters of each "<name> : " tell the tags apart. */
  lemma SplitRender(t: ValueTypes, rest: string)
    ensures SplitTypeName(TypeName(t) + Separator + rest) == Some((t, rest))
  {
    var s := TypeName(t) + Separator + rest;
    var p := TypeName(t) + Separator;
    assert s[..|p|] == p;
    assert s[|p|..] == rest;
    assert s[0] == TypeName(t)[0];
    if t == Decimal {
      assert s[2] == 'c';
    } else if t == Delete {
      assert s[2] == 'l';
    }
  }

  /** Every well-typed value is read back from its text. */
  lemma {:induction false} ParseRender(t: ValueTypes, v: Payload)
    requires WellTyped(t, v)
    ensures ParseValueDefinition(Render(t, v)) == Some((t, v))
  {
    SplitRender(t, PayloadText(v));
    match v
    case UInt32Value(n) => DecimalText.ParseFromNat(n as nat);
    case UInt64Value(m) => DecimalText.ParseFromNat(m as nat);
    case _ =>
  }

  /** Every text that parses is the rendering of a well-typed value. */
  lemma {:induction false} RenderParse(s: string)
    ensures ParseValueDefinition(s).Some? ==>
      var (t, v) := ParseValueDefinition(s).value;
      WellTyped(t, v) && Render(t, v) == s
  {
    match SplitTypeName(s)
    case None =>
    case Some((t, rest)) =>
      var p := TypeName(t) + Separator;
      assert s == p + rest by {
        assert s[..|p|] == p && s[|p|..] == rest;
      }
      if t == Decimal || t == LongDecimal {
        DecimalText.FromNatParse(rest);
      }
  }

  /** Two well-typed values with the same text have the same tag and payload. */
  lemma ToStringInjective(a: ValueDefinition, b: ValueDefinition)
    requires WellTyped(a.valueType, a.value) && WellTyped(b.valueType, b.value)
    requires a.ToString() == b.ToString()
    ensures a.valueType == b.valueType && a.value == b.value
  {
    // ToString's own contract gives both values back from the common text.
  }

  // ---------------------------------------------------------------------
  // Lists

  /** One immutable row of a list: registry path, value name and value. */
  class ListItem {
    const registryPath: string
    const registryValueName: string
    const value: ValueDefinition?

    constructor (registryPath: string, registryValueName: string, value: ValueDefinition?)
      ensures this.registryPath == registryPath
      ensures this.registryValueName == registryValueName
      ensures this.value == value
    {
      this.registryPath := registryPath;
      this.registryValueName := registryValueName;
      this.value := value;
    }
  }

  /** A list of registry entries with a default path. Its items are handed
      out by reference, so holders of the list see appends made later. */
  class ValueDefinitionList {
    var items: seq<ListItem?>
    const defaultRegistryPath: string

    constructor ()
      ensures defaultRegistryPath == "" && items == []
    {
      defaultRegistryPath := "";
      items := [];
    }

    constructor WithPath(defaultRegistryPath: string)
      ensures this.defaultRegistryPath == defaultRegistryPath && items == []
    {
      this.defaultRegistryPath := defaultRegistryPath;
      items := [];
    }

    /** `Items.Add(item)` on the exposed list. */
    method AddItem(item: ListItem?)
      modifies this`items
      ensures items == old(items) + [item]
    {
      items := items + [item];
    }
  }

  // ---------------------------------------------------------------------
  // The aggregate

  /** All value information of one policy. Fields change only through the
      setters; the list predicates are computed from the lists' current
      contents each time they are asked, while HasElement is a stored flag. */
  class PolicyValueInfo {
    var registryValueName: Option<string>
    var enabledValue: ValueDefinition?
    var disabledValue: ValueDefinition?
    var enabledList: ValueDefinitionList?
    var disabledList: ValueDefinitionList?
    var hasElement: bool

    constructor ()
      ensures registryValueName == None
      ensures enabledValue == null && disabledValue == null
      ensures enabledList == null && disabledList == null
      ensures !hasElement
      ensures !HasEnabledList() && !HasDisabledList()
    {
      registryValueName := None;
      enabledValue := null;
      disabledValue := null;
      enabledList := null;
      disabledList := null;
      hasElement := false;
    }

    /** Non-null and non-empty, judged on the list's items at the time
        of the query, not when the list was attached. */
    predicate HasEnabledList(): (present: bool)
      reads this, enabledList
      ensures present <==> enabledList != null && |enabledList.items| > 0
    {
      enabledList != null && |enabledList.items| > 0
    }

    /** Non-null and non-empty, judged on the list's items at the time
        of the query, not when the list was attached. */
    predicate HasDisabledList(): (present: bool)
      reads this, disabledList
      ensures present <==> disabledList != null && |disabledList.items| > 0
    {
      disabledList != null && |disabledList.items| > 0
    }

    method SetRegistryValue(valueName: Option<string>, enabledValue: ValueDefinition?, disabledValue: ValueDefinition?)
      modifies this`registryValueName, this`enabledValue, this`disabledValue
      ensures registryValueName == valueName
      ensures this.enabledValue == enabledValue && this.disabledValue == disabledValue
      ensures enabledList == old(enabledList) && disabledList == old(disabledList)
      ensures hasElement == old(hasElement)
      ensures HasEnabledList() == old(HasEnabledList()) && HasDisabledList() == old(HasDisabledList())
    {
      registryValueName := valueName;
      this.enabledValue := enabledValue;
      this.disabledValue := disabledValue;
    }

    method SetEnabledListValue(list: ValueDefinitionList?)
      modifies this`enabledList
      ensures enabledList == list
      ensures registryValueName == old(registryValueName)
      ensures enabledValue == old(enabledValue) && disabledValue == old(disabledValue)
      ensures disabledList == old(disabledList) && hasElement == old(hasElement)
      ensures HasEnabledList() <==> list != null && |list.items| > 0
      ensures HasDisabledList() == old(HasDisabledList())
    {
      enabledList := list;
    }

    method SetDisabledListValue(list: ValueDefinitionList?)
      modifies this`disabledList
      ensures disabledList == list
      ensures registryValueName == old(registryValueName)
      ensures enabledValue == old(enabledValue) && disabledValue == old(disabledValue)
      ensures enabledList == old(enabledList) && hasElement == old(hasElement)
      ensures HasDisabledList() <==> list != null && |list.items| > 0
      ensures HasEnabledList() == old(HasEnabledList())
    {
      disabledList := list;
    }

    method SetHasElement(element: bool)
      modifies this`hasElement
      ensures hasElement == element
      ensures registryValueName == old(registryValueName)
      ensures enabledValue == old(enabledValue) && disabledValue == old(disabledValue)
      ensures enabledList == old(enabledList) && disabledList == old(disabledList)
      ensures HasEnabledList() == old(HasEnabledList()) && HasDisabledList() == old(HasDisabledList())
    {
      hasElement := element;
    }
  }
}
