/**
 * The dynamic Ansible inventory: instance records (as read from the ERP
 * server) become host variables, hosts are grouped by their Ansible groups,
 * and null values are stripped from nested dicts.
 */
module AnsibleInventory {
  import opened Wrappers
  import opened Seqs
  import opened PyValue
  import GitUrlPattern

  datatype InventoryError =
    | BadBranchData         // a branch record that is not a dict, or whose `git_path_ssh` is not a string
    | NoGitMatch            // `git_path_ssh` does not match the clone-URL pattern
    | NoBranches            // `branches` missing or not a dict
    | MissingFqdnOrGroups   // the assertion on `fqdn` and `ansible_group_ids`
    | UnsupportedShape      // a truthy `fqdn` that is not a string, or groups that are neither a string nor a list of strings

  // ---------------------------------------------------------------------
  // One branch

  /** The groups of `re.search(pattern, git_url)`, when it matches. */
  function UrlGroups(url: string): (r: Option<(string, string)>)
    ensures r.Some? <==> GitUrlPattern.Search(url).Some?
  {
    var m := GitUrlPattern.Search(url);
    if m.None? then None
    else
      GitUrlPattern.SearchIsLeftmostGreedy(url);
      Some(GitUrlPattern.Groups(url, m.value))
  }

  /** `branch_data_to_ansible_json`. */
  function BranchDataToAnsibleJson(b: Value): Result<Value, InventoryError>
  {
    if !b.Dict? then Failure(BadBranchData)
    else
      var url := Get(b.fields, "git_path_ssh", Null);
      if !url.Str? then Failure(BadBranchData)
      else
        match UrlGroups(url.s)
        case None => Failure(NoGitMatch)
        case Some(groups) =>
          Success(Dict(map[
            "repo" := Str(groups.1),
            "server" := Get(b.fields, "host", Null),
            "project" := Str(groups.0),
            "branch" := Get(b.fields, "branch", Null),
            "link" := Get(b.fields, "enabled_modules", Null)]))
  }

  /**
   * A branch record converts exactly when it is a dict whose clone URL
   * matches; the result carries the two groups as project and repository
   * and copies server, branch and link.
   */
  lemma BranchJsonContents(b: Value)
    ensures BranchDataToAnsibleJson(b).Success? <==>
      b.Dict? && Get(b.fields, "git_path_ssh", Null).Str? && GitUrlPattern.Search(Get(b.fields, "git_path_ssh", Null).s).Some?
    ensures b.Dict? && Get(b.fields, "git_path_ssh", Null).Str? && GitUrlPattern.Search(Get(b.fields, "git_path_ssh", Null).s).None? ==>
      BranchDataToAnsibleJson(b) == Failure(NoGitMatch)
    ensures BranchDataToAnsibleJson(b).Success? ==>
      var url := Get(b.fields, "git_path_ssh", Null).s;
      var m := GitUrlPattern.Search(url).value;
      var r := BranchDataToAnsibleJson(b).value;
      && GitUrlPattern.IsMatch(url, m)
      && r.Dict? && r.fields.Keys == {"repo", "server", "project", "branch", "link"}
      && r.fields["project"] == Str(GitUrlPattern.Groups(url, m).0)
      && r.fields["repo"] == Str(GitUrlPattern.Groups(url, m).1)
      && r.fields["server"] == Get(b.fields, "host", Null)
      && r.fields["branch"] == Get(b.fields, "branch", Null)
      && r.fields["link"] == Get(b.fields, "enabled_modules", Null)
  {
    if b.Dict? && Get(b.fields, "git_path_ssh", Null).Str? {
      GitUrlPattern.SearchIsLeftmostGreedy(Get(b.fields, "git_path_ssh", Null).s);
    }
  }

  // ---------------------------------------------------------------------
  // Host variables

  /** `odoo_ansible_field_mapping`: instance field, Ansible variable, default. */
  const FieldMapping: seq<(string, string, Value)> := [
    ("customer", "customer", Null),
    ("odoo_master_pwd", "odoo_admin_pass", Null),
    ("db_name", "db_name", Null),
    ("fqdn", "fqdn", Null),
    ("ip", "ip", Null),
    ("odoo_enterprise", "odoo_enterprise", Bool(false)),
    ("odoo_version", "odoo_version", Null),
    ("apt_package_ids", "extra_apt_deps", Null),
    ("pip_module_ids", "extra_pip_requirements", Null),
    ("openvz_production_cid", "openvz_production_cid", Null),
    ("ip_backup", "ip_backup", Null),
    ("openvz_backup_cid", "openvz_backup_cid", Null),
    ("psql_dbpass", "psql_dbpass", Null),
    ("odoo_dbfilter", "odoo_dbfilter", Null),
    ("configure_zabbix", "configure_zabbix", Null),
    ("sentry_enabled", "sentry_enabled", Null),
    ("sentry_client_dsn", "sentry_client_dsn", Null)
  ]

  /** The Ansible variable names, each used once and none of them `extra_repo`. */
  lemma AnsibleNamesDistinct()
    ensures forall i, j | 0 <= i < j < |FieldMapping| :: FieldMapping[i].1 != FieldMapping[j].1
    ensures forall i | 0 <= i < |FieldMapping| :: FieldMapping[i].1 != "extra_repo"
  {
  }

  /** `values` after the first `n` rows of a mapping table. */
  function MapRows(rows: seq<(string, string, Value)>, instance: map<string, Value>, n: nat): map<string, Value>
    requires n <= |rows|
  {
    if n == 0 then map[]
    else
      var row := rows[n - 1];
      var v := Get(instance, row.0, row.2);
      var prev := MapRows(rows, instance, n - 1);
      if v != Null then prev[row.1 := v] else prev
  }

  /** `values` after the first `n` rows of the mapping. */
  function MappedFields(instance: map<string, Value>, n: nat): map<string, Value>
    requires n <= |FieldMapping|
  {
    MapRows(FieldMapping, instance, n)
  }

  /** With distinct target names, each row's variable holds its non-None value and nothing else appears. */
  lemma {:induction false} MapRowsContents(rows: seq<(string, string, Value)>, instance: map<string, Value>, n: nat)
    requires n <= |rows|
    requires forall i, j | 0 <= i < j < |rows| :: rows[i].1 != rows[j].1
    ensures forall i | 0 <= i < n ::
      var row := rows[i];
      && (row.1 in MapRows(rows, instance, n) <==> Get(instance, row.0, row.2) != Null)
      && (row.1 in MapRows(rows, instance, n) ==> MapRows(rows, instance, n)[row.1] == Get(instance, row.0, row.2))
    ensures forall k | k in MapRows(rows, instance, n) :: exists i | 0 <= i < n :: rows[i].1 == k
  {
    if n > 0 {
      MapRowsContents(rows, instance, n - 1);
    }
  }

  /**
   * Each Ansible variable of the mapping is present exactly when the instance
   * value, or the default when the field is absent, is not None, and then
   * holds that value; no other variable appears.
   */
  lemma MappedFieldsContents(instance: map<string, Value>, n: nat)
    requires n <= |FieldMapping|
    ensures forall i | 0 <= i < n ::
      var row := FieldMapping[i];
      && (row.1 in MappedFields(instance, n) <==> Get(instance, row.0, row.2) != Null)
      && (row.1 in MappedFields(instance, n) ==> MappedFields(instance, n)[row.1] == Get(instance, row.0, row.2))
    ensures forall k | k in MappedFields(instance, n) :: exists i | 0 <= i < n :: FieldMapping[i].1 == k
  {
    AnsibleNamesDistinct();
    MapRowsContents(FieldMapping, instance, n);
  }

  /** `instance_data.get('branches')`, when it is a dict. */
  function BranchMap(instance: map<string, Value>): Option<map<string, Value>>
  {
    var b := Get(instance, "branches", Null);
    if b.Dict? then Some(b.fields) else None
  }

  predicate BranchesOk(instance: map<string, Value>)
  {
    && BranchMap(instance).Some?
    && forall k | k in BranchMap(instance).value :: BranchDataToAnsibleJson(BranchMap(instance).value[k]).Success?
  }

  /** A possible iteration order of `branches.values()`: each branch once. */
  predicate IsBranchOrder(order: seq<string>, instance: map<string, Value>)
  {
    BranchMap(instance).Some? && Distinct(order) && Elements(order) == BranchMap(instance).value.Keys
  }

  /** The branches converted in the given order; the first failure is the result. */
  function ConvertAll(branches: map<string, Value>, order: seq<string>): Result<seq<Value>, InventoryError>
  {
    if order == [] then Success([])
    else
      var last := order[|order| - 1];
      match ConvertAll(branches, order[..|order| - 1])
      case Failure(e) => Failure(e)
      case Success(items) =>
        if last !in branches then Failure(BadBranchData)
        else
          match BranchDataToAnsibleJson(branches[last])
          case Failure(e) => Failure(e)
          case Success(v) => Success(items + [v])
  }

  lemma {:induction false} ConvertAllContents(branches: map<string, Value>, order: seq<string>)
    ensures ConvertAll(branches, order).Success? <==>
      forall i | 0 <= i < |order| :: order[i] in branches && BranchDataToAnsibleJson(branches[order[i]]).Success?
    ensures ConvertAll(branches, order).Success? ==>
      var items := ConvertAll(branches, order).value;
      |items| == |order| && forall i | 0 <= i < |order| :: items[i] == BranchDataToAnsibleJson(branches[order[i]]).value
  {
    if order != [] {
      var front := order[..|order| - 1];
      ConvertAllContents(branches, front);
      assert forall i | 0 <= i < |front| :: front[i] == order[i];
    }
  }

  /** `get_host_vars` for a given branch order. */
  function HostVarsFor(instance: map<string, Value>, order: seq<string>): Result<map<string, Value>, InventoryError>
  {
    match BranchMap(instance)
    case None => Failure(NoBranches)
    case Some(branches) =>
      match ConvertAll(branches, order)
      case Failure(e) => Failure(e)
      case Success(items) => Success(MappedFields(instance, |FieldMapping|)["extra_repo" := List(items)])
  }

  /** The variables `get_host_vars` may return, whatever order the branches come in. */
  ghost predicate IsHostVars(instance: map<string, Value>, vars: map<string, Value>)
  {
    exists order | IsBranchOrder(order, instance) :: HostVarsFor(instance, order) == Success(vars)
  }

  /** The errors `get_host_vars` may raise. */
  ghost predicate IsHostVarsError(instance: map<string, Value>, e: InventoryError)
  {
    match BranchMap(instance)
    case None => e == NoBranches
    case Some(branches) => exists k | k in branches :: BranchDataToAnsibleJson(branches[k]) == Failure(e)
  }

  /** The host variables: mapped fields as stated above, plus one converted entry per branch. */
  lemma HostVarsContents(instance: map<string, Value>, order: seq<string>, vars: map<string, Value>)
    requires IsBranchOrder(order, instance) && HostVarsFor(instance, order) == Success(vars)
    ensures forall i | 0 <= i < |FieldMapping| ::
      var row := FieldMapping[i];
      && (row.1 in vars <==> Get(instance, row.0, row.2) != Null)
      && (row.1 in vars ==> vars[row.1] == Get(instance, row.0, row.2))
    ensures "extra_repo" in vars && vars["extra_repo"].List?
    ensures var items := vars["extra_repo"].items;
      && |items| == |order| == |BranchMap(instance).value|
      && forall i | 0 <= i < |items| :: order[i] in BranchMap(instance).value && BranchDataToAnsibleJson(BranchMap(instance).value[order[i]]) == Success(items[i])
    ensures forall k | k in vars :: k == "extra_repo" || exists i | 0 <= i < |FieldMapping| :: FieldMapping[i].1 == k
  {
    MappedFieldsContents(instance, |FieldMapping|);
    AnsibleNamesDistinct();
    ConvertAllContents(BranchMap(instance).value, order);
    DistinctCardinality(order);
  }

  /** Without an `odoo_enterprise` field the variable is `False`, never omitted. */
  lemma EnterpriseDefaultsToFalse(instance: map<string, Value>, order: seq<string>, vars: map<string, Value>)
    requires IsBranchOrder(order, instance) && HostVarsFor(instance, order) == Success(vars)
    requires "odoo_enterprise" !in instance
    ensures "odoo_enterprise" in vars && vars["odoo_enterprise"] == Bool(false)
  {
    HostVarsContents(instance, order, vars);
    assert FieldMapping[5] == ("odoo_enterprise", "odoo_enterprise", Bool(false));
  }

  lemma ConvertAllAppend(branches: map<string, Value>, order: seq<string>, k: string, items: seq<Value>, v: Value)
    requires ConvertAll(branches, order) == Success(items)
    requires k in branches && BranchDataToAnsibleJson(branches[k]) == Success(v)
    ensures ConvertAll(branches, order + [k]) == Success(items + [v])
  {
    assert (order + [k])[..|order|] == order;
  }

  /** The loop of `get_host_vars` over the mapping table. */
  method MapFields(instance: map<string, Value>) returns (values: map<string, Value>)
    ensures values == MappedFields(instance, |FieldMapping|)
  {
    values := map[];
    for i := 0 to |FieldMapping|
      invariant values == MappedFields(instance, i)
    {
      var row := FieldMapping[i];
      var fieldValue := Get(instance, row.0, row.2);
      if fieldValue != Null {
        values := values[row.1 := fieldValue];
      }
    }
  }

  /** The list comprehension over `branches.values()`, in whatever order the dict yields them. */
  method ConvertBranches(branches: map<string, Value>) returns (r: Result<seq<Value>, InventoryError>, ghost order: seq<string>)
    ensures Distinct(order) && Elements(order) <= branches.Keys
    ensures r.Success? ==> Elements(order) == branches.Keys && ConvertAll(branches, order) == r
    ensures r.Failure? ==> exists k | k in branches :: BranchDataToAnsibleJson(branches[k]) == Failure(r.error)
  {
    order := [];
    var remaining := branches.Keys;
    var items: seq<Value> := [];
    while remaining != {}
      invariant remaining !! Elements(order) && remaining + Elements(order) == branches.Keys
      invariant Distinct(order)
      invariant ConvertAll(branches, order) == Success(items)
      decreases remaining
    {
      var k :| k in remaining;
      var converted := BranchDataToAnsibleJson(branches[k]);
      if converted.Failure? {
        return Failure(converted.error), order;
      }
      ConvertAllAppend(branches, order, k, items, converted.value);
      items := items + [converted.value];
      order := order + [k];
      remaining := remaining - {k};
    }
    r := Success(items);
  }

  /** All branches convert when one complete order of them converts. */
  lemma OrderConvertsAll(branches: map<string, Value>, order: seq<string>)
    requires Elements(order) == branches.Keys
    ensures ConvertAll(branches, order).Success? <==> forall k | k in branches :: BranchDataToAnsibleJson(branches[k]).Success?
  {
    ConvertAllContents(branches, order);
    assert forall k | k in branches :: exists i | 0 <= i < |order| :: order[i] == k;
  }

  /** `get_host_vars`: the mapped fields, then `extra_repo` from every branch. */
  method GetHostVars(instance: map<string, Value>) returns (r: Result<map<string, Value>, InventoryError>, ghost order: seq<string>)
    ensures r.Success? <==> BranchesOk(instance)
    ensures r.Failure? ==> IsHostVarsError(instance, r.error)
    ensures r.Success? ==> IsBranchOrder(order, instance) && HostVarsFor(instance, order) == Success(r.value)
  {
    var values := MapFields(instance);
    order := [];
    var branches := Get(instance, "branches", Null);
    if !branches.Dict? {
      return Failure(NoBranches), order;
    }
    var items: Result<seq<Value>, InventoryError>;
    items, order := ConvertBranches(branches.fields);
    if items.Failure? {
      return Failure(items.error), order;
    }
    OrderConvertsAll(branches.fields, order);
    r := Success(values["extra_repo" := List(items.value)]);
  }

  // ---------------------------------------------------------------------
  // The inventory

  function FqdnOf(h: map<string, Value>): string
  {
    match Get(h, "fqdn", Null)
    case Str(s) => s
    case _ => ""
  }

  function StrItems(vs: seq<Value>): (r: seq<string>)
    ensures (forall i | 0 <= i < |vs| :: vs[i].Str?) ==> |r| == |vs| && forall i | 0 <= i < |vs| :: r[i] == vs[i].s
  {
    if vs == [] then []
    else
      var front := StrItems(vs[..|vs| - 1]);
      var last := vs[|vs| - 1];
      assert forall i | 0 <= i < |vs| - 1 :: vs[..|vs| - 1][i] == vs[i];
      front + (if last.Str? then [last.s] else [])
  }

  /** The groups `for group in ansible_groups` goes through: a list's strings, or a string's characters. */
  function GroupNamesOf(h: map<string, Value>): seq<string>
  {
    match Get(h, "ansible_group_ids", Null)
    case List(items) => StrItems(items)
    case Str(s) => seq(|s|, i requires 0 <= i < |s| => [s[i]])
    case _ => []
  }

  /** The assertion on `fqdn` and the groups, and the shapes the model handles. */
  function ShapeError(h: map<string, Value>): Option<InventoryError>
  {
    var fqdn := Get(h, "fqdn", Null);
    var groups := Get(h, "ansible_group_ids", Null);
    if !Truthy(fqdn) || !Truthy(groups) then Some(MissingFqdnOrGroups)
    else if !fqdn.Str? || !(groups.Str? || (groups.List? && forall i | 0 <= i < |groups.items| :: groups.items[i].Str?)) then Some(UnsupportedShape)
    else None
  }

  predicate HostOk(h: map<string, Value>)
  {
    ShapeError(h).None? && BranchesOk(h)
  }

  ghost predicate IsHostError(h: map<string, Value>, e: InventoryError)
  {
    if ShapeError(h).Some? then e == ShapeError(h).value else IsHostVarsError(h, e)
  }

  /** `add_host_to_groups(fqdn, group)` for each listed group in turn. */
  function AddToGroups(groups: map<string, seq<string>>, names: seq<string>, fqdn: string): map<string, seq<string>>
  {
    if names == [] then groups
    else
      var before := AddToGroups(groups, names[..|names| - 1], fqdn);
      var g := names[|names| - 1];
      before[g := (if g in before then before[g] else []) + [fqdn]]
  }

  /** The hosts of group `g`, an absent group having none. */
  function GroupHosts(groups: map<string, seq<string>>, g: string): seq<string>
  {
    if g in groups then groups[g] else []
  }

  /** The group lists after every host. */
  function Groups(hosts: seq<map<string, Value>>): map<string, seq<string>>
  {
    if hosts == [] then map[]
    else
      var last := hosts[|hosts| - 1];
      AddToGroups(Groups(hosts[..|hosts| - 1]), GroupNamesOf(last), FqdnOf(last))
  }

  /** `fqdn` once for each time `names` lists `g`. */
  function Occurrences(names: seq<string>, g: string, fqdn: string): seq<string>
  {
    if names == [] then []
    else Occurrences(names[..|names| - 1], g, fqdn) + (if names[|names| - 1] == g then [fqdn] else [])
  }

  /** Reference definition: the members of `g`, host by host, in input order. */
  function Members(hosts: seq<map<string, Value>>, g: string): seq<string>
  {
    if hosts == [] then []
    else
      var last := hosts[|hosts| - 1];
      Members(hosts[..|hosts| - 1], g) + Occurrences(GroupNamesOf(last), g, FqdnOf(last))
  }

  lemma {:induction false} AddToGroupsEffect(groups: map<string, seq<string>>, names: seq<string>, fqdn: string, g: string)
    ensures GroupHosts(AddToGroups(groups, names, fqdn), g) == GroupHosts(groups, g) + Occurrences(names, g, fqdn)
    ensures g in AddToGroups(groups, names, fqdn) <==> g in groups || g in names
  {
    if names != [] {
      var front := names[..|names| - 1];
      AddToGroupsEffect(groups, front, fqdn, g);
      assert names == front + [names[|names| - 1]];
    }
  }

  /**
   * A group exists exactly when some host lists it, and holds the fqdn of
   * every host listing it, once per listing, in input order.
   */
  lemma {:induction false} GroupsAreMembers(hosts: seq<map<string, Value>>, g: string)
    ensures GroupHosts(Groups(hosts), g) == Members(hosts, g)
    ensures g in Groups(hosts) <==> exists i | 0 <= i < |hosts| :: g in GroupNamesOf(hosts[i])
  {
    GroupHostsAreMembers(hosts, g);
    GroupExistsIffListed(hosts, g);
  }

  lemma {:induction false} GroupHostsAreMembers(hosts: seq<map<string, Value>>, g: string)
    ensures GroupHosts(Groups(hosts), g) == Members(hosts, g)
  {
    if hosts != [] {
      var front := hosts[..|hosts| - 1];
      var last := hosts[|hosts| - 1];
      GroupHostsAreMembers(front, g);
      AddToGroupsEffect(Groups(front), GroupNamesOf(last), FqdnOf(last), g);
    }
  }

  lemma GroupExistsIffListed(hosts: seq<map<string, Value>>, g: string)
    ensures g in Groups(hosts) <==> exists i | 0 <= i < |hosts| :: g in GroupNamesOf(hosts[i])
  {
    if g in Groups(hosts) {
      var i := ExistingGroupIsListed(hosts, g);
    }
    forall i | 0 <= i < |hosts| && g in GroupNamesOf(hosts[i]) ensures g in Groups(hosts) {
      ListedGroupExists(hosts, g, i);
    }
  }

  /** A group that exists is listed by some host; `i` is one such host. */
  lemma {:induction false} ExistingGroupIsListed(hosts: seq<map<string, Value>>, g: string) returns (i: nat)
    requires g in Groups(hosts)
    ensures i < |hosts| && g in GroupNamesOf(hosts[i])
  {
    var front := hosts[..|hosts| - 1];
    var last := hosts[|hosts| - 1];
    AddToGroupsEffect(Groups(front), GroupNamesOf(last), FqdnOf(last), g);
    if g in GroupNamesOf(last) {
      i := |hosts| - 1;
    } else {
      i := ExistingGroupIsListed(front, g);
      assert front[i] == hosts[i];
    }
  }

  /** A group that host `i` lists exists. */
  lemma {:induction false} ListedGroupExists(hosts: seq<map<string, Value>>, g: string, i: nat)
    requires i < |hosts| && g in GroupNamesOf(hosts[i])
    ensures g in Groups(hosts)
  {
    var front := hosts[..|hosts| - 1];
    var last := hosts[|hosts| - 1];
    AddToGroupsEffect(Groups(front), GroupNamesOf(last), FqdnOf(last), g);
    if i < |hosts| - 1 {
      assert front[i] == hosts[i];
      ListedGroupExists(front, g, i);
    }
  }

  /** The index of the last host with this fqdn, or -1. */
  function LastWith(hosts: seq<map<string, Value>>, f: string): (r: int)
    ensures -1 <= r < |hosts|
    ensures r >= 0 ==> FqdnOf(hosts[r]) == f
  {
    if hosts == [] then -1
    else if FqdnOf(hosts[|hosts| - 1]) == f then |hosts| - 1
    else LastWith(hosts[..|hosts| - 1], f)
  }

  /** An fqdn has a last host exactly when some host has it, and no later host has it. */
  lemma {:induction false} LastWithIsLast(hosts: seq<map<string, Value>>, f: string)
    ensures LastWith(hosts, f) >= 0 <==> exists i | 0 <= i < |hosts| :: FqdnOf(hosts[i]) == f
    ensures forall j | LastWith(hosts, f) < j < |hosts| :: FqdnOf(hosts[j]) != f
  {
    if hosts != [] && FqdnOf(hosts[|hosts| - 1]) != f {
      var front := hosts[..|hosts| - 1];
      LastWithIsLast(front, f);
      assert forall i | 0 <= i < |front| :: front[i] == hosts[i];
    }
  }

  function StrValues(fs: seq<string>): (r: seq<Value>)
    ensures |r| == |fs| && forall i | 0 <= i < |fs| :: r[i] == Str(fs[i])
  {
    seq(|fs|, i requires 0 <= i < |fs| => Str(fs[i]))
  }

  /** The returned dict: one entry per group, then `_meta.hostvars`. */
  function InventoryValue(groups: map<string, seq<string>>, hostVars: map<string, map<string, Value>>): Value
  {
    var groupValues := map g | g in groups :: Dict(map["hosts" := List(StrValues(groups[g])), "vars" := Dict(map[])]);
    var hostVarValues := map f | f in hostVars :: Dict(hostVars[f]);
    Dict(groupValues["_meta" := Dict(map["hostvars" := Dict(hostVarValues)])])
  }

  lemma GroupsStep(hosts: seq<map<string, Value>>, i: nat)
    requires i < |hosts|
    ensures Groups(hosts[..i + 1]) == AddToGroups(Groups(hosts[..i]), GroupNamesOf(hosts[i]), FqdnOf(hosts[i]))
  {
    assert hosts[..i + 1][..i] == hosts[..i];
  }

  lemma LastWithStep(hosts: seq<map<string, Value>>, i: nat, f: string)
    requires i < |hosts|
    ensures LastWith(hosts[..i + 1], f) == if FqdnOf(hosts[i]) == f then i else LastWith(hosts[..i], f)
  {
    assert hosts[..i + 1][..i] == hosts[..i];
  }

  lemma AddToGroupsStep(groups: map<string, seq<string>>, names: seq<string>, j: nat, fqdn: string)
    requires j < |names|
    ensures AddToGroups(groups, names[..j + 1], fqdn) ==
      var before := AddToGroups(groups, names[..j], fqdn);
      before[names[j] := (if names[j] in before then before[names[j]] else []) + [fqdn]]
  {
    assert names[..j + 1][..j] == names[..j];
  }

  /** The first `n` hosts all pass. */
  predicate AllOk(hosts: seq<map<string, Value>>, n: int)
    requires n <= |hosts|
  {
    forall j | 0 <= j < n :: HostOk(hosts[j])
  }

  lemma AllOkStep(hosts: seq<map<string, Value>>, i: nat)
    requires i < |hosts| && AllOk(hosts, i) && HostOk(hosts[i])
    ensures AllOk(hosts, i + 1)
  {
  }

  /** Host `i` is the first one that fails. */
  predicate FirstBadHost(hosts: seq<map<string, Value>>, i: int)
  {
    0 <= i < |hosts| && AllOk(hosts, i) && !HostOk(hosts[i])
  }

  /** `add_host_to_groups(fqdn, group)` for every listed group: a group is created empty on first use. */
  method AddHostToGroups(groups: map<string, seq<string>>, names: seq<string>, fqdn: string)
    returns (r: map<string, seq<string>>)
    ensures r == AddToGroups(groups, names, fqdn)
  {
    r := groups;
    for j := 0 to |names|
      invariant r == AddToGroups(groups, names[..j], fqdn)
    {
      AddToGroupsStep(groups, names, j, fqdn);
      var group := names[j];
      if group !in r {
        r := r[group := []];
      }
      r := r[group := r[group] + [fqdn]];
    }
    assert names[..|names|] == names;
  }

  /** The invariant on `ansible_host_vars` after host `i` is added. */
  lemma HostVarsStep(hosts: seq<map<string, Value>>, i: nat, hv: map<string, map<string, Value>>, vars: map<string, Value>, hv': map<string, map<string, Value>>)
    requires i < |hosts|
    requires forall f :: f in hv <==> LastWith(hosts[..i], f) >= 0
    requires forall f | f in hv :: IsHostVars(hosts[LastWith(hosts[..i], f)], hv[f])
    requires IsHostVars(hosts[i], vars)
    requires hv' == hv[FqdnOf(hosts[i]) := vars]
    ensures forall f :: f in hv' <==> LastWith(hosts[..i + 1], f) >= 0
    ensures forall f | f in hv' :: IsHostVars(hosts[LastWith(hosts[..i + 1], f)], hv'[f])
  {
    forall f
      ensures f in hv' <==> LastWith(hosts[..i + 1], f) >= 0
      ensures f in hv' ==> IsHostVars(hosts[LastWith(hosts[..i + 1], f)], hv'[f])
    {
      LastWithStep(hosts, i, f);
    }
  }

  /** The state of `create_ansible_inventory` after the first `i` hosts. */
  ghost predicate InventorySoFar(hosts: seq<map<string, Value>>, i: nat, groups: map<string, seq<string>>, hostVars: map<string, map<string, Value>>)
    requires i <= |hosts|
  {
    && groups == Groups(hosts[..i])
    && (forall f :: f in hostVars <==> LastWith(hosts[..i], f) >= 0)
    && (forall f | f in hostVars :: IsHostVars(hosts[LastWith(hosts[..i], f)], hostVars[f]))
  }

  lemma InventoryStep(hosts: seq<map<string, Value>>, i: nat, groups: map<string, seq<string>>,
                      hostVars: map<string, map<string, Value>>, groups': map<string, seq<string>>, vars: map<string, Value>)
    requires i < |hosts| && InventorySoFar(hosts, i, groups, hostVars)
    requires groups' == Groups(hosts[..i + 1]) && IsHostVars(hosts[i], vars)
    ensures InventorySoFar(hosts, i + 1, groups', hostVars[FqdnOf(hosts[i]) := vars])
  {
    HostVarsStep(hosts, i, hostVars, vars, hostVars[FqdnOf(hosts[i]) := vars]);
  }

  lemma InventoryComplete(hosts: seq<map<string, Value>>, groups: map<string, seq<string>>, hostVars: map<string, map<string, Value>>)
    requires InventorySoFar(hosts, |hosts|, groups, hostVars)
    ensures groups == Groups(hosts)
    ensures forall f :: f in hostVars <==> LastWith(hosts, f) >= 0
    ensures forall f | f in hostVars :: IsHostVars(hosts[LastWith(hosts, f)], hostVars[f])
  {
    assert hosts[..|hosts|] == hosts;
  }

  /** One pass of the loop body: the assertion, the groups, then the host variables. */
  method AddHost(hosts: seq<map<string, Value>>, i: nat, groups: map<string, seq<string>>, hostVars: map<string, map<string, Value>>)
    returns (err: Option<InventoryError>, groups': map<string, seq<string>>, hostVars': map<string, map<string, Value>>)
    requires i < |hosts| && InventorySoFar(hosts, i, groups, hostVars)
    ensures err.None? <==> HostOk(hosts[i])
    ensures err.Some? ==> IsHostError(hosts[i], err.value)
    ensures err.None? ==> InventorySoFar(hosts, i + 1, groups', hostVars')
  {
    groups', hostVars' := groups, hostVars;
    var h := hosts[i];
    // the assertion on fqdn and groups
    var shape := ShapeError(h);
    if shape.Some? {
      return shape, groups', hostVars';
    }
    var fqdn := FqdnOf(h);
    groups' := AddHostToGroups(groups, GroupNamesOf(h), fqdn);
    GroupsStep(hosts, i);
    var vars: Result<map<string, Value>, InventoryError>;
    ghost var order: seq<string>;
    vars, order := GetHostVars(h);
    if vars.Failure? {
      return Some(vars.error), groups', hostVars';
    }
    assert IsHostVars(h, vars.value) by {
      assert IsBranchOrder(order, h) && HostVarsFor(h, order) == Success(vars.value);
    }
    InventoryStep(hosts, i, groups, hostVars, groups', vars.value);
    hostVars' := hostVars[fqdn := vars.value];
    err := None;
  }

  /**
   * `create_ansible_inventory`: every host must pass the assertion and yield
   * host variables; the groups are then as `GroupsAreMembers` states, and
   * `_meta.hostvars` holds, for each fqdn, the variables of the last host
   * with that fqdn.
   */
  method CreateAnsibleInventory(hosts: seq<map<string, Value>>)
    returns (r: Result<Value, InventoryError>, hostVars: map<string, map<string, Value>>)
    ensures r.Success? <==> forall i | 0 <= i < |hosts| :: HostOk(hosts[i])
    ensures r.Failure? ==> exists i | 0 <= i < |hosts| :: FirstBadHost(hosts, i) && IsHostError(hosts[i], r.error)
    ensures r.Success? ==> r.value == InventoryValue(Groups(hosts), hostVars)
    ensures r.Success? ==> forall f :: f in hostVars <==> LastWith(hosts, f) >= 0
    ensures r.Success? ==> forall f | f in hostVars :: IsHostVars(hosts[LastWith(hosts, f)], hostVars[f])
  {
    var groups: map<string, seq<string>> := map[];
    hostVars := map[];
    for i := 0 to |hosts|
      invariant AllOk(hosts, i)
      invariant InventorySoFar(hosts, i, groups, hostVars)
    {
      var err: Option<InventoryError>;
      err, groups, hostVars := AddHost(hosts, i, groups, hostVars);
      if err.Some? {
        assert FirstBadHost(hosts, i);
        return Failure(err.value), hostVars;
      }
      AllOkStep(hosts, i);
    }
    InventoryComplete(hosts, groups, hostVars);
    r := Success(InventoryValue(groups, hostVars));
  }

  // ---------------------------------------------------------------------
  // Removing nulls

  /** No dict, at any depth of dicts inside dicts, maps a key to None. */
  predicate NoNulls(v: Value)
  {
    match v
    case Dict(f) => forall k | k in f :: f[k] != Null && NoNulls(f[k])
    case _ => true
  }

  /** Reference definition of `remove_null_values` on one value. */
  function Cleaned(v: Value): Value
  {
    match v
    case Dict(f) => Dict(map k | k in f && f[k] != Null :: Cleaned(f[k]))
    case _ => v
  }

  /**
   * `remove_null_values(d)`: first every nested dict is cleaned (the first
   * loop pair), then the keys mapped to None are deleted (the second).
   */
  method RemoveNullValues(d: map<string, Value>) returns (r: map<string, Value>)
    ensures Dict(r) == Cleaned(Dict(d))
    decreases Dict(d)
  {
    r := d;
    var dictKeys := set k | k in d && d[k].Dict?;
    var todo := dictKeys;
    while todo != {}
      invariant todo <= dictKeys
      invariant r.Keys == d.Keys
      invariant forall k | k in r :: r[k] == if k in todo then d[k] else Cleaned(d[k])
      decreases todo
    {
      var k :| k in todo;
      var sub := RemoveNullValues(d[k].fields);
      r := r[k := Dict(sub)];
      todo := todo - {k};
    }
    var noneKeys := set k | k in r && r[k] == Null;
    CleanedDeletesNulls(d, r, noneKeys);
    r := r - noneKeys;
  }

  /** With every nested dict cleaned, deleting the None entries completes the cleaning. */
  lemma CleanedDeletesNulls(d: map<string, Value>, r: map<string, Value>, noneKeys: set<string>)
    requires r.Keys == d.Keys && forall k | k in r :: r[k] == Cleaned(d[k])
    requires noneKeys == set k | k in r && r[k] == Null
    ensures Dict(r - noneKeys) == Cleaned(Dict(d))
  {
    assert forall k | k in d :: (Cleaned(d[k]) == Null <==> d[k] == Null);
  }

  /** After cleaning, no nested dict holds None; entries that were not None keep their keys. */
  lemma {:induction false} CleanedHasNoNulls(v: Value)
    ensures NoNulls(Cleaned(v))
    ensures v.Dict? ==> Cleaned(v).Dict? && forall k :: k in Cleaned(v).fields <==> k in v.fields && v.fields[k] != Null
  {
    if v.Dict? {
      forall k | k in Cleaned(v).fields ensures Cleaned(v).fields[k] != Null && NoNulls(Cleaned(v).fields[k]) {
        CleanedHasNoNulls(v.fields[k]);
      }
    }
  }

  /** A value without nulls is left as it is; so a second call changes nothing. */
  lemma {:induction false} CleanedKeepsNullFree(v: Value)
    requires NoNulls(v)
    ensures Cleaned(v) == v
  {
    if v.Dict? {
      forall k | k in v.fields ensures Cleaned(v.fields[k]) == v.fields[k] {
        CleanedKeepsNullFree(v.fields[k]);
      }
      assert Cleaned(v).fields == v.fields;
    }
  }

  lemma CleanedIdempotent(v: Value)
    ensures Cleaned(Cleaned(v)) == Cleaned(v)
  {
    CleanedHasNoNulls(v);
    CleanedKeepsNullFree(Cleaned(v));
  }
}
