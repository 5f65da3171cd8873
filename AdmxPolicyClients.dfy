/** How a loader fills the model: the lists are attached to a policy by
    reference and may be filled afterwards through that reference. */
module AdmxPolicyClients {
  import opened Wrappers
  import opened AdmxPolicy

  /** Appending to the enabled list through the reference the policy hands
      out makes HasEnabledList true at the next query. HasDisabledList
      becomes true as well when both slots hold the same list, and
      otherwise keeps its old value. */
  method AddEnabledListItem(info: PolicyValueInfo, item: ListItem?)
    requires info.enabledList != null
    modifies info.enabledList
    ensures info.enabledList == old(info.enabledList) && info.disabledList == old(info.disabledList)
    ensures info.enabledList.items == old(info.enabledList.items) + [item]
    ensures info.HasEnabledList()
    ensures info.HasDisabledList() <==> old(info.HasDisabledList()) || info.disabledList == info.enabledList
  {
    var list := info.enabledList;
    list.AddItem(item);
  }

  /** A list attached while empty does not count as present; the same list
      counts once an item has been added to it, without touching the policy. */
  method EnabledListFilledAfterAttach(item: ListItem?) returns (before: bool, after: bool)
    ensures !before && after
  {
    var info := new PolicyValueInfo();
    var list := new ValueDefinitionList.WithPath("Software\\Policies");
    info.SetEnabledListValue(list);
    before := info.HasEnabledList();
    list.AddItem(item);
    after := info.HasEnabledList();
  }

  /** The common policy shape "DWORD 1 enables, delete the value disables":
      only the scalar pair is set, so neither list is present and the
      element flag stays off. */
  method DwordEnablesDeleteDisables() returns (enabledText: string, disabledText: string, hasList: bool, hasElement: bool)
    ensures enabledText == "Decimal : 1" && disabledText == "Delete : "
    ensures !hasList && !hasElement
  {
    var info := new PolicyValueInfo();
    var enabled := new ValueDefinition(Decimal, UInt32Value(1));
    var disabled := new ValueDefinition(Delete, Null);
    info.SetRegistryValue(Some("Enabled"), enabled, disabled);
    enabledText := info.enabledValue.ToString();
    disabledText := info.disabledValue.ToString();
    hasList := info.HasEnabledList() || info.HasDisabledList();
    hasElement := info.hasElement;
  }
}
