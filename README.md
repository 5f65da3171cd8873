# AdmxPolicy policy value model in Dafny

This project models the policy value model of AdmxPolicy, a PowerShell
module that reads Windows Group Policy administrative templates (ADMX/ADML).
It covers these parts:

- **Registry scope.** `RegistryTypes` is a `[Flags]` enum over a 32-bit int: `Unknown = 0`, `LocalMachine = 1`, `CurrentUser = 2` and `Both = LocalMachine + CurrentUser`.
  - `PolicyInfo.RegistryDrives` maps the scope to the PowerShell drives `HKLM:` and `HKCU:`.
  - Every scope value outside the three named non-empty ones maps to the single placeholder `""`.
- **Values.** `ValueDefinition` is an immutable pair of a `ValueTypes` tag and an untyped payload. `ToString` renders them as `"{0} : {1}"`.
  - The payload is a datatype with one case per boxed kind: null, 32-bit unsigned, 64-bit unsigned and string.
  - Tag and payload are stored independently, as in the source, so a mismatched pair can be built.
  - `WellTyped` names the matching pairs.
- **Lists.** `ListItem` is an immutable triple of registry path, value name and value. `ValueDefinitionList` holds a mutable list of items and a default path that is `""` when none is given.
- **The aggregate.** `PolicyValueInfo` changes only through its four setters.
  - `HasEnabledList` and `HasDisabledList` are computed when queried, from the lists' current contents.
  - `HasElement` is a stored flag.

Classes stand where the source has reference types. Immutability is carried by `const` fields. Nullable references stay nullable (`ValueDefinition?`, `ValueDefinitionList?`). A list attached to a policy and filled afterwards is seen by the policy's predicates; `AdmxPolicyClients.AddEnabledListItem` states this for any policy, including one whose two list slots hold the same list.

`ToString` has an inverse partner, `ParseValueDefinition`. Well-typed values and the texts that parse correspond one to one:

- every well-typed value reads back from its text;
- every text that parses is the text of a well-typed value.

Integers inside the text use the digits .NET writes for `uint`/`ulong`. These are modelled in `DecimalText`, with the round trip proved both ways.

Three facts about the code shape the model:

- `HasElement` is a stored flag set by `_set_HasElement`.
- `ValueDefinition` is compared by reference.
- The code has no tag-to-storage-kind mapping, no root-key names and no element types, so the model has none either.

## Model

| member | source | states |
|---|---|---|
| `AdmxPolicy.PolicyInfo.RegistryDrives` | AdmxPolicy/AdmxPolicy.cs:62-74 | LocalMachine gives exactly ["HKLM:"], CurrentUser ["HKCU:"], Both ["HKLM:", "HKCU:"] in that order; every other 32-bit value, Unknown included, gives [""]; so the result has one or two entries, two exactly for Both, and entry 0 is non-empty exactly for scopes 1..3 |
| `AdmxPolicy.PolicyInfo.constructor` | AdmxPolicy/AdmxPolicy.cs:60-61 | a new policy's scope is Unknown (the enum default 0), so its drives are [""] |
| `AdmxPolicy.RegistryDrivesByFlags` | AdmxPolicy/AdmxPolicy.cs:5-12 | read as flags, a scope built only from the two defined bits yields one drive per set bit, machine before user; Unknown and any value with another bit set (such as 5) yields only the placeholder |
| `AdmxPolicy.ValueDefinition.constructor` | AdmxPolicy/AdmxPolicy.cs:96-100 | the tag and payload given are the ones stored; both fields are const, so no later call changes them |
| `AdmxPolicy.ValueDefinition.ToString` | AdmxPolicy/AdmxPolicy.cs:101-104 | for every pair, matching or not, the text is the tag's name, then " : ", then the payload's text (null gives ""); for a well-typed value, parsing the text gives back the same tag and payload |
| `AdmxPolicy.ParseRender` | AdmxPolicy/AdmxPolicy.cs:103 | every well-typed tag/payload pair is recovered from its "{0} : {1}" text |
| `AdmxPolicy.RenderParse` | AdmxPolicy/AdmxPolicy.cs:103 | every text that parses is exactly the "{0} : {1}" text of a well-typed pair, so the two directions form a bijection |
| `AdmxPolicy.ToStringInjective` | AdmxPolicy/AdmxPolicy.cs:101-104 | two well-typed values with equal text have equal tags and equal payloads |
| `DecimalText.FromNat` | AdmxPolicy/AdmxPolicy.cs:103 | a number's text is a non-empty run of digits with no leading zero, one digit exactly for numbers below 10 |
| `DecimalText.ToNatFromNat` | AdmxPolicy/AdmxPolicy.cs:103 | reading back the digits written for n gives n |
| `DecimalText.FromNatToNat` | AdmxPolicy/AdmxPolicy.cs:103 | writing the number a canonical digit run denotes gives that run back |
| `DecimalText.ParseFromNat` | AdmxPolicy/AdmxPolicy.cs:103 | the digit parser accepts every number's text and returns that number |
| `DecimalText.FromNatParse` | AdmxPolicy/AdmxPolicy.cs:103 | whatever the digit parser accepts is the text of the number it returns |
| `AdmxPolicy.ListItem.constructor` | AdmxPolicy/AdmxPolicy.cs:131-136 | registry path, value name and value are stored as given; all three are const |
| `AdmxPolicy.ValueDefinitionList.constructor` | AdmxPolicy/AdmxPolicy.cs:113-116 | default registry path "" and no items |
| `AdmxPolicy.ValueDefinitionList.WithPath` | AdmxPolicy/AdmxPolicy.cs:117-120 | default registry path as given and no items |
| `AdmxPolicy.ValueDefinitionList.AddItem` | AdmxPolicy/AdmxPolicy.cs:109-110 | an append through the exposed Items list adds the item at the end and changes nothing else |
| `AdmxPolicy.PolicyValueInfo.constructor` | AdmxPolicy/AdmxPolicy.cs:142-176 | a new aggregate has a null value name, null values, null lists and HasElement false, so HasEnabledList and HasDisabledList are false |
| `AdmxPolicy.PolicyValueInfo.HasEnabledList` | AdmxPolicy/AdmxPolicy.cs:159 | true exactly when the enabled list is non-null and non-empty, evaluated on the list's current items |
| `AdmxPolicy.PolicyValueInfo.HasDisabledList` | AdmxPolicy/AdmxPolicy.cs:162 | true exactly when the disabled list is non-null and non-empty, evaluated on the list's current items |
| `AdmxPolicy.PolicyValueInfo.SetRegistryValue` | AdmxPolicy/AdmxPolicy.cs:150-155 | the value name and both values become the arguments; lists, HasElement and both list predicates are unchanged |
| `AdmxPolicy.PolicyValueInfo.SetEnabledListValue` | AdmxPolicy/AdmxPolicy.cs:157-167 | only the enabled list changes; HasEnabledList is then true exactly when the new list is non-null and non-empty; HasDisabledList is unchanged |
| `AdmxPolicy.PolicyValueInfo.SetDisabledListValue` | AdmxPolicy/AdmxPolicy.cs:160-172 | only the disabled list changes; HasDisabledList is then true exactly when the new list is non-null and non-empty; HasEnabledList is unchanged |
| `AdmxPolicy.PolicyValueInfo.SetHasElement` | AdmxPolicy/AdmxPolicy.cs:175-182 | HasElement becomes the argument and nothing else changes; the flag is stored, independent of any list |
| `AdmxPolicyClients.AddEnabledListItem` | AdmxPolicy/AdmxPolicy.cs:158-162 | appending to the attached enabled list makes HasEnabledList true with no call on the policy; HasDisabledList becomes true as well when both slots hold the same list, and otherwise keeps its old value |
| `AdmxPolicyClients.EnabledListFilledAfterAttach` | AdmxPolicy/AdmxPolicy.cs:159 | a list attached while empty gives HasEnabledList false; after one append to that list it gives true |
| `AdmxPolicyClients.DwordEnablesDeleteDisables` | AdmxPolicy/AdmxPolicy.cs:145-159 | with (Decimal, 1) enabled and (Delete, null) disabled, the texts are "Decimal : 1" and "Delete : ", and neither list nor the element flag is present |

## Left out

- `AdmlResource`, `AdmxFileInfo` (including its `ToString`, which returns its name) and `CategoryInfo` are left out. They are property bags and dictionary holders with no behaviour.
- The plain properties of `PolicyInfo` other than `RegistryType` are left out: file reference, name, display name, explain text, registry path and value info. Each only stores what it is given.
- The PowerShell `HiddenAttribute` on the setters is left out. It controls visibility in the host, not behaviour.
- `ValueDefinition.ToString` is modelled only for payloads of the four modelled kinds. .NET formatting of any other boxed object is not modelled.
- `ValueTypes` is modelled as its five named members. An out-of-range integer cast to it, which .NET would print as a number, is not modelled.
- `ValueDefinitionList.WithPath` and `ListItem.constructor` take non-null strings. A null string argument, which the source would store, is not modelled.
- `PolicyValueInfo.registryValueName` is the one string field that is null by default, so it is modelled as an option.
- The element type definitions are not modelled. The source does not implement them; it marks them as a TODO and keeps only the `HasElement` flag.
- ADMX/ADML parsing and registry I/O are not modelled. They are not part of this model.
