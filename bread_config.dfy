/** The shipped package configuration (`config/bread.php`). */
module BreadConfig {
  import opened Wrappers
  import opened Values
  import opened Definitions

  /** `bread.model_namespace` */
  const ModelNamespace: string := "\\App\\Models\\"

  /** `bread.default_field_group` */
  const DefaultFieldGroup: string := "general"

  /** `bread.default_field_groups`: `general` (order 0) and `relations` (order 100). */
  function DefaultFieldGroups(): seq<(string, Group)> {
    [("general", Group("general", "", "", Bool(false), 0)),
     ("relations", Group("relations", "", "", Bool(false), 100))]
  }

  /** The same configuration entry read as the PHP array it is. */
  function DefaultFieldGroupsValue(): Value {
    var gs := DefaultFieldGroups();
    GroupsValue(seq(|gs|, i requires 0 <= i < |gs| => (gs[i].0, GroupView(Some(gs[i].1), []))))
  }
}
