/**
 * The admission validator for KubeDirectorApp documents: six independent
 * rule checks over the decoded document, and the admission decision that
 * runs them in a fixed order and joins their messages.
 *
 * Each check is specified by a function from the document to the list of
 * violations it reports, and implemented by a method that builds the same
 * list step by step, as the validator does with its `errorMessages` slice.
 */
module AppValidator {
  import opened Wrappers
  import opened Shared
  import opened KdApp

  /** The message templates of the validator, each with its parameters. */
  datatype Violation =
    | NonUniqueRoleID
    | NonUniqueServiceID
    | NonUniqueSelectedRole
    | NonUniqueServiceRole
    | InvalidNodeRoleID(roleId: string, validRoleIds: seq<string>)
    | InvalidServiceID(serviceId: string, validServiceIds: seq<string>)
    | InvalidSelectedRoleID(selectedRole: string, validRoleIds: seq<string>)
    | NoDefaultImage
    | NoUrlScheme(dashboardId: string)

  // ---------------------------------------------------------------------
  // Uniqueness of the declared role and service identifiers
  // ---------------------------------------------------------------------

  /** The messages of the uniqueness check, in the order it emits them. */
  function UniquenessViolations(allRoleIds: seq<string>, allServiceIds: seq<string>): seq<Violation>
  {
    (if IsUnique(allRoleIds) then [] else [NonUniqueRoleID]) +
    (if IsUnique(allServiceIds) then [] else [NonUniqueServiceID])
  }

  /**
   * The role message fires exactly on a repeated role ID, the service
   * message exactly on a repeated service ID, neither is repeated, and the
   * role message comes first.
   */
  lemma UniquenessViolationsReport(allRoleIds: seq<string>, allServiceIds: seq<string>)
    ensures var r := UniquenessViolations(allRoleIds, allServiceIds);
      && (NonUniqueRoleID in r <==> !IsUnique(allRoleIds))
      && (NonUniqueServiceID in r <==> !IsUnique(allServiceIds))
      && (forall k | 0 <= k < |r| :: r[k] == NonUniqueRoleID || r[k] == NonUniqueServiceID)
      && IsUnique(r)
      && (|r| == 2 ==> r[0] == NonUniqueRoleID)
      && (r == [] <==> IsUnique(allRoleIds) && IsUnique(allServiceIds))
  {
  }

  method ValidateUniqueness(allRoleIds: seq<string>, allServiceIds: seq<string>)
    returns (errorMessages: seq<Violation>)
    ensures errorMessages == UniquenessViolations(allRoleIds, allServiceIds)
  {
    errorMessages := [];
    if !IsUnique(allRoleIds) {
      errorMessages := errorMessages + [NonUniqueRoleID];
    }
    if !IsUnique(allServiceIds) {
      errorMessages := errorMessages + [NonUniqueServiceID];
    }
  }

  // ---------------------------------------------------------------------
  // Uniqueness of the role references in the config section
  // ---------------------------------------------------------------------

  /** The role IDs of a list of bindings, in order. */
  function RoleIdsOf(bindings: seq<RoleServiceBinding>): (ids: seq<string>)
    ensures |ids| == |bindings|
    ensures forall k | 0 <= k < |bindings| :: ids[k] == bindings[k].roleId
  {
    if bindings == [] then [] else [bindings[0].roleId] + RoleIdsOf(bindings[1..])
  }

  /** Two different bindings name the same role. */
  predicate SharesRoleId(bindings: seq<RoleServiceBinding>) {
    exists i, j | 0 <= i < j < |bindings| :: bindings[i].roleId == bindings[j].roleId
  }

  /** The messages of the reference-uniqueness check, in the order it emits them. */
  function RefUniquenessViolations(config: Config): seq<Violation>
  {
    (if IsUnique(config.selectedRoles) then [] else [NonUniqueSelectedRole]) +
    (if IsUnique(RoleIdsOf(config.roleServices)) then [] else [NonUniqueServiceRole])
  }

  /**
   * The selected-role message fires exactly on a repeated selected role, and
   * depends on nothing else; the binding message fires exactly when two
   * bindings share a role, at most once, and after the selected-role message.
   */
  lemma RefUniquenessViolationsReport(config: Config)
    ensures var r := RefUniquenessViolations(config);
      && (NonUniqueSelectedRole in r <==> !IsUnique(config.selectedRoles))
      && (NonUniqueServiceRole in r <==> SharesRoleId(config.roleServices))
      && (forall k | 0 <= k < |r| :: r[k] == NonUniqueSelectedRole || r[k] == NonUniqueServiceRole)
      && IsUnique(r)
      && (|r| == 2 ==> r[0] == NonUniqueSelectedRole)
      && (r == [] <==> IsUnique(config.selectedRoles) && !SharesRoleId(config.roleServices))
  {
    var ids := RoleIdsOf(config.roleServices);
    if !IsUnique(ids) {
      var i, j :| 0 <= i < j < |ids| && ids[i] == ids[j];
      assert config.roleServices[i].roleId == config.roleServices[j].roleId;
    }
  }

  /** A role ID already met among the earlier bindings makes the list of bound role IDs non-unique. */
  lemma RepeatBreaksUniqueness(ids: seq<string>, i: nat)
    requires i < |ids| && ids[i] in ids[..i]
    ensures !IsUnique(ids)
  {
    var k :| 0 <= k < i && ids[..i][k] == ids[i];
    assert ids[k] == ids[i];
  }

  /** A role ID not met among the earlier bindings keeps the prefix unique. */
  lemma FreshKeepsUniqueness(ids: seq<string>, i: nat)
    requires i < |ids| && IsUnique(ids[..i]) && ids[i] !in ids[..i]
    ensures IsUnique(ids[..i + 1])
  {
    assert ids[..i + 1] == ids[..i] + [ids[i]];
    IsUniqueSnoc(ids[..i], ids[i]);
  }

  method ValidateRefUniqueness(app: App) returns (errorMessages: seq<Violation>)
    ensures errorMessages == RefUniquenessViolations(app.config)
  {
    errorMessages := [];
    if !IsUnique(app.config.selectedRoles) {
      errorMessages := errorMessages + [NonUniqueSelectedRole];
    }
    ghost var selectedPart := errorMessages;
    var bindings := app.config.roleServices;
    ghost var ids := RoleIdsOf(bindings);
    var roleSeen: map<string, bool> := map[];
    var i := 0;
    while i < |bindings|
      invariant 0 <= i <= |bindings|
      invariant errorMessages == selectedPart
      invariant forall x :: x in roleSeen <==> x in ids[..i]
      invariant IsUnique(ids[..i])
    {
      var roleId := bindings[i].roleId;
      assert roleId == ids[i];
      if roleId in roleSeen {
        RepeatBreaksUniqueness(ids, i);
        errorMessages := errorMessages + [NonUniqueServiceRole];
        break;
      }
      FreshKeepsUniqueness(ids, i);
      assert ids[..i + 1] == ids[..i] + [roleId];
      roleSeen := roleSeen[roleId := true];
      i := i + 1;
    }
    assert i == |bindings| ==> ids[..i] == ids;
  }

  // ---------------------------------------------------------------------
  // References from role_services to declared roles and services
  // ---------------------------------------------------------------------

  /** One message per service ID that is not declared, in list order. */
  function ServiceIdViolations(serviceIds: seq<string>, allServiceIds: seq<string>): seq<Violation>
  {
    if serviceIds == [] then []
    else
      (if serviceIds[0] in allServiceIds then [] else [InvalidServiceID(serviceIds[0], allServiceIds)]) +
      ServiceIdViolations(serviceIds[1..], allServiceIds)
  }

  /** A binding's service messages: one per undeclared service ID. */
  lemma {:induction false} ServiceIdViolationsCount(serviceIds: seq<string>, allServiceIds: seq<string>)
    ensures |ServiceIdViolations(serviceIds, allServiceIds)| == CountNotIn(serviceIds, allServiceIds)
  {
    if serviceIds != [] {
      ServiceIdViolationsCount(serviceIds[1..], allServiceIds);
    }
  }

  /** Each service message names an undeclared service ID of the binding and the valid list. */
  lemma {:induction false} ServiceIdViolationsSound(serviceIds: seq<string>, allServiceIds: seq<string>)
    ensures forall v | v in ServiceIdViolations(serviceIds, allServiceIds) ::
      v.InvalidServiceID? && v.serviceId in serviceIds &&
      v.serviceId !in allServiceIds && v.validServiceIds == allServiceIds
  {
    if serviceIds != [] {
      ServiceIdViolationsSound(serviceIds[1..], allServiceIds);
    }
  }

  /** Every undeclared service ID of the binding is named. */
  lemma {:induction false} ServiceIdViolationsComplete(serviceIds: seq<string>, allServiceIds: seq<string>)
    ensures forall x | x in serviceIds && x !in allServiceIds ::
      InvalidServiceID(x, allServiceIds) in ServiceIdViolations(serviceIds, allServiceIds)
  {
    if serviceIds != [] {
      ServiceIdViolationsComplete(serviceIds[1..], allServiceIds);
      assert forall x | x in serviceIds :: x == serviceIds[0] || x in serviceIds[1..];
    }
  }

  /** The messages of a list of service IDs are those of its parts, in order. */
  lemma {:induction false} ServiceIdViolationsAppend(a: seq<string>, b: seq<string>, allServiceIds: seq<string>)
    ensures ServiceIdViolations(a + b, allServiceIds) ==
            ServiceIdViolations(a, allServiceIds) + ServiceIdViolations(b, allServiceIds)
  {
    if a == [] {
      assert a + b == b;
    } else {
      assert (a + b)[1..] == a[1..] + b;
      ServiceIdViolationsAppend(a[1..], b, allServiceIds);
    }
  }

  /** The messages for one binding: its role first, then its services. */
  function BindingViolations(binding: RoleServiceBinding, allRoleIds: seq<string>, allServiceIds: seq<string>): seq<Violation>
  {
    (if binding.roleId in allRoleIds then [] else [InvalidNodeRoleID(binding.roleId, allRoleIds)]) +
    ServiceIdViolations(binding.serviceIds, allServiceIds)
  }

  /** The service IDs of all bindings, concatenated in order. */
  function BoundServiceIds(bindings: seq<RoleServiceBinding>): seq<string>
  {
    if bindings == [] then [] else bindings[0].serviceIds + BoundServiceIds(bindings[1..])
  }

  /** Every role and every service that the bindings name is declared. */
  predicate ReferencesDeclared(bindings: seq<RoleServiceBinding>, allRoleIds: seq<string>, allServiceIds: seq<string>) {
    forall i | 0 <= i < |bindings| ::
      bindings[i].roleId in allRoleIds &&
      forall x | x in bindings[i].serviceIds :: x in allServiceIds
  }

  /** The messages of every binding, in traversal order. */
  function ServiceRoleViolations(bindings: seq<RoleServiceBinding>, allRoleIds: seq<string>, allServiceIds: seq<string>): seq<Violation>
  {
    if bindings == [] then []
    else BindingViolations(bindings[0], allRoleIds, allServiceIds) + ServiceRoleViolations(bindings[1..], allRoleIds, allServiceIds)
  }

  /** No message exactly when every role and service the bindings name is declared. */
  lemma {:induction false} ServiceRoleViolationsEmpty(bindings: seq<RoleServiceBinding>, allRoleIds: seq<string>, allServiceIds: seq<string>)
    ensures ServiceRoleViolations(bindings, allRoleIds, allServiceIds) == [] <==>
            ReferencesDeclared(bindings, allRoleIds, allServiceIds)
  {
    if bindings != [] {
      var rest := bindings[1..];
      ServiceRoleViolationsEmpty(rest, allRoleIds, allServiceIds);
      ServiceIdViolationsCount(bindings[0].serviceIds, allServiceIds);
      assert forall i | 1 <= i < |bindings| :: bindings[i] == rest[i - 1];
    }
  }

  /**
   * One message per binding whose role is undeclared plus one per
   * undeclared service ID across all bindings.
   */
  lemma {:induction false} ServiceRoleViolationsCount(bindings: seq<RoleServiceBinding>, allRoleIds: seq<string>, allServiceIds: seq<string>)
    ensures |ServiceRoleViolations(bindings, allRoleIds, allServiceIds)| ==
            CountNotIn(RoleIdsOf(bindings), allRoleIds) + CountNotIn(BoundServiceIds(bindings), allServiceIds)
  {
    if bindings != [] {
      var rest := bindings[1..];
      ServiceRoleViolationsCount(rest, allRoleIds, allServiceIds);
      ServiceIdViolationsCount(bindings[0].serviceIds, allServiceIds);
      CountNotInAppend(bindings[0].serviceIds, BoundServiceIds(rest), allServiceIds);
      assert RoleIdsOf(bindings) == [bindings[0].roleId] + RoleIdsOf(rest);
    }
  }

  /** Each message names an undeclared role or service ID together with the valid list. */
  lemma {:induction false} ServiceRoleViolationsSound(bindings: seq<RoleServiceBinding>, allRoleIds: seq<string>, allServiceIds: seq<string>)
    ensures forall v | v in ServiceRoleViolations(bindings, allRoleIds, allServiceIds) ::
      || (v.InvalidNodeRoleID? && v.roleId in RoleIdsOf(bindings) &&
          v.roleId !in allRoleIds && v.validRoleIds == allRoleIds)
      || (v.InvalidServiceID? && v.serviceId in BoundServiceIds(bindings) &&
          v.serviceId !in allServiceIds && v.validServiceIds == allServiceIds)
  {
    if bindings != [] {
      ServiceRoleViolationsSound(bindings[1..], allRoleIds, allServiceIds);
      ServiceIdViolationsSound(bindings[0].serviceIds, allServiceIds);
      assert RoleIdsOf(bindings) == [bindings[0].roleId] + RoleIdsOf(bindings[1..]);
    }
  }

  /** Every undeclared role of a binding and every undeclared service ID is named. */
  lemma {:induction false} ServiceRoleViolationsComplete(bindings: seq<RoleServiceBinding>, allRoleIds: seq<string>, allServiceIds: seq<string>)
    ensures forall i | 0 <= i < |bindings| && bindings[i].roleId !in allRoleIds ::
      InvalidNodeRoleID(bindings[i].roleId, allRoleIds) in ServiceRoleViolations(bindings, allRoleIds, allServiceIds)
    ensures forall i, x | 0 <= i < |bindings| && x in bindings[i].serviceIds && x !in allServiceIds ::
      InvalidServiceID(x, allServiceIds) in ServiceRoleViolations(bindings, allRoleIds, allServiceIds)
  {
    if bindings != [] {
      var rest := bindings[1..];
      ServiceRoleViolationsComplete(rest, allRoleIds, allServiceIds);
      ServiceIdViolationsComplete(bindings[0].serviceIds, allServiceIds);
      assert forall i | 1 <= i < |bindings| :: bindings[i] == rest[i - 1];
    }
  }

  /** The messages of a list of bindings are those of its parts, in traversal order. */
  lemma {:induction false} ServiceRoleViolationsAppend(a: seq<RoleServiceBinding>, b: seq<RoleServiceBinding>,
                                                        allRoleIds: seq<string>, allServiceIds: seq<string>)
    ensures ServiceRoleViolations(a + b, allRoleIds, allServiceIds) ==
            ServiceRoleViolations(a, allRoleIds, allServiceIds) + ServiceRoleViolations(b, allRoleIds, allServiceIds)
  {
    if a == [] {
      assert a + b == b;
    } else {
      assert (a + b)[1..] == a[1..] + b;
      ServiceRoleViolationsAppend(a[1..], b, allRoleIds, allServiceIds);
    }
  }

  /** Processing one more binding appends that binding's messages. */
  lemma ServiceRoleViolationsSnoc(bindings: seq<RoleServiceBinding>, binding: RoleServiceBinding,
                                  allRoleIds: seq<string>, allServiceIds: seq<string>)
    ensures ServiceRoleViolations(bindings + [binding], allRoleIds, allServiceIds) ==
            ServiceRoleViolations(bindings, allRoleIds, allServiceIds) + BindingViolations(binding, allRoleIds, allServiceIds)
  {
    ServiceRoleViolationsAppend(bindings, [binding], allRoleIds, allServiceIds);
    assert ServiceRoleViolations([binding], allRoleIds, allServiceIds) == BindingViolations(binding, allRoleIds, allServiceIds);
  }

  /** Processing the next binding of a list appends that binding's messages. */
  lemma ServiceRoleViolationsStep(bindings: seq<RoleServiceBinding>, i: nat, allRoleIds: seq<string>, allServiceIds: seq<string>)
    requires i < |bindings|
    ensures ServiceRoleViolations(bindings[..i + 1], allRoleIds, allServiceIds) ==
            ServiceRoleViolations(bindings[..i], allRoleIds, allServiceIds) + BindingViolations(bindings[i], allRoleIds, allServiceIds)
  {
    assert bindings[..i + 1] == bindings[..i] + [bindings[i]];
    ServiceRoleViolationsSnoc(bindings[..i], bindings[i], allRoleIds, allServiceIds);
  }

  /**
   * Processing the next service ID of a binding appends its message, if it
   * is undeclared, after whatever was collected before the binding's service IDs.
   */
  lemma ServiceIdViolationsStep(collected: seq<Violation>, serviceIds: seq<string>, j: nat, allServiceIds: seq<string>)
    requires j < |serviceIds|
    ensures collected + ServiceIdViolations(serviceIds[..j + 1], allServiceIds) ==
            collected + ServiceIdViolations(serviceIds[..j], allServiceIds) +
            (if serviceIds[j] in allServiceIds then [] else [InvalidServiceID(serviceIds[j], allServiceIds)])
  {
    assert serviceIds[..j + 1] == serviceIds[..j] + [serviceIds[j]];
    ServiceIdViolationsAppend(serviceIds[..j], [serviceIds[j]], allServiceIds);
  }

  /** The role message followed by the service messages are the binding's messages. */
  lemma BindingViolationsSplit(before: seq<Violation>, withRole: seq<Violation>, binding: RoleServiceBinding,
                               allRoleIds: seq<string>, allServiceIds: seq<string>)
    requires withRole == before + (if binding.roleId in allRoleIds then [] else [InvalidNodeRoleID(binding.roleId, allRoleIds)])
    ensures withRole + ServiceIdViolations(binding.serviceIds, allServiceIds) ==
            before + BindingViolations(binding, allRoleIds, allServiceIds)
  {
  }

  method ValidateServiceRoles(app: App, allRoleIds: seq<string>, allServiceIds: seq<string>)
    returns (errorMessages: seq<Violation>)
    ensures errorMessages == ServiceRoleViolations(app.config.roleServices, allRoleIds, allServiceIds)
  {
    errorMessages := [];
    var bindings := app.config.roleServices;
    var i := 0;
    while i < |bindings|
      invariant 0 <= i <= |bindings|
      invariant errorMessages == ServiceRoleViolations(bindings[..i], allRoleIds, allServiceIds)
    {
      var nodeRole := bindings[i];
      ghost var before := errorMessages;
      if nodeRole.roleId !in allRoleIds {
        errorMessages := errorMessages + [InvalidNodeRoleID(nodeRole.roleId, allRoleIds)];
      }
      ghost var withRole := errorMessages;
      var j := 0;
      while j < |nodeRole.serviceIds|
        invariant 0 <= j <= |nodeRole.serviceIds|
        invariant errorMessages == withRole + ServiceIdViolations(nodeRole.serviceIds[..j], allServiceIds)
      {
        var serviceId := nodeRole.serviceIds[j];
        ServiceIdViolationsStep(withRole, nodeRole.serviceIds, j, allServiceIds);
        if serviceId !in allServiceIds {
          errorMessages := errorMessages + [InvalidServiceID(serviceId, allServiceIds)];
        }
        j := j + 1;
      }
      assert nodeRole.serviceIds[..j] == nodeRole.serviceIds;
      BindingViolationsSplit(before, withRole, nodeRole, allRoleIds, allServiceIds);
      ServiceRoleViolationsStep(bindings, i, allRoleIds, allServiceIds);
      i := i + 1;
    }
    assert bindings[..i] == bindings;
  }

  // ---------------------------------------------------------------------
  // Selected roles must resolve through the document's role lookup
  // ---------------------------------------------------------------------

  /** The number of entries of `roles` that the lookup does not resolve. */
  function CountUnresolved(app: App, roles: seq<string>, found: RoleLookup): nat
  {
    if roles == [] then 0
    else (if found(app, roles[0]) then 0 else 1) + CountUnresolved(app, roles[1..], found)
  }

  /** One message per selected role that does not resolve, in list order. */
  function SelectedRoleViolations(app: App, roles: seq<string>, found: RoleLookup, allRoleIds: seq<string>): seq<Violation>
  {
    if roles == [] then []
    else
      (if found(app, roles[0]) then [] else [InvalidSelectedRoleID(roles[0], allRoleIds)]) +
      SelectedRoleViolations(app, roles[1..], found, allRoleIds)
  }

  /** One message per entry that does not resolve. */
  lemma {:induction false} SelectedRoleViolationsCount(app: App, roles: seq<string>, found: RoleLookup, allRoleIds: seq<string>)
    ensures |SelectedRoleViolations(app, roles, found, allRoleIds)| == CountUnresolved(app, roles, found)
  {
    if roles != [] {
      SelectedRoleViolationsCount(app, roles[1..], found, allRoleIds);
    }
  }

  /** Each message names an entry that does not resolve, and the declared role IDs. */
  lemma {:induction false} SelectedRoleViolationsSound(app: App, roles: seq<string>, found: RoleLookup, allRoleIds: seq<string>)
    ensures forall v | v in SelectedRoleViolations(app, roles, found, allRoleIds) ::
      v.InvalidSelectedRoleID? && v.selectedRole in roles &&
      !found(app, v.selectedRole) && v.validRoleIds == allRoleIds
  {
    if roles != [] {
      SelectedRoleViolationsSound(app, roles[1..], found, allRoleIds);
    }
  }

  /** Every entry that does not resolve is named; so no message exactly when all resolve. */
  lemma {:induction false} SelectedRoleViolationsComplete(app: App, roles: seq<string>, found: RoleLookup, allRoleIds: seq<string>)
    ensures forall x | x in roles && !found(app, x) ::
      InvalidSelectedRoleID(x, allRoleIds) in SelectedRoleViolations(app, roles, found, allRoleIds)
    ensures SelectedRoleViolations(app, roles, found, allRoleIds) == [] <==> forall x | x in roles :: found(app, x)
  {
    if roles != [] {
      SelectedRoleViolationsComplete(app, roles[1..], found, allRoleIds);
      assert forall x | x in roles :: x == roles[0] || x in roles[1..];
    }
  }

  /** The messages of a list of selected roles are those of its parts, in order. */
  lemma {:induction false} SelectedRoleViolationsAppend(app: App, a: seq<string>, b: seq<string>,
                                                         found: RoleLookup, allRoleIds: seq<string>)
    ensures SelectedRoleViolations(app, a + b, found, allRoleIds) ==
            SelectedRoleViolations(app, a, found, allRoleIds) + SelectedRoleViolations(app, b, found, allRoleIds)
  {
    if a == [] {
      assert a + b == b;
    } else {
      assert (a + b)[1..] == a[1..] + b;
      SelectedRoleViolationsAppend(app, a[1..], b, found, allRoleIds);
    }
  }

  method ValidateSelectedRoles(app: App, found: RoleLookup, allRoleIds: seq<string>)
    returns (errorMessages: seq<Violation>)
    ensures errorMessages == SelectedRoleViolations(app, app.config.selectedRoles, found, allRoleIds)
  {
    errorMessages := [];
    var selected := app.config.selectedRoles;
    var i := 0;
    while i < |selected|
      invariant 0 <= i <= |selected|
      invariant errorMessages == SelectedRoleViolations(app, selected[..i], found, allRoleIds)
    {
      var role := selected[i];
      if !found(app, role) {
        errorMessages := errorMessages + [InvalidSelectedRoleID(role, allRoleIds)];
      }
      assert selected[..i + 1] == selected[..i] + [role];
      SelectedRoleViolationsAppend(app, selected[..i], [role], found, allRoleIds);
      i := i + 1;
    }
    assert selected[..i] == selected;
  }

  // ---------------------------------------------------------------------
  // Every role needs an image of its own or a default image
  // ---------------------------------------------------------------------

  /**
   * At most one message, and it is the no-default-image message; it fires
   * exactly when the default image is unset and some role has no image, so a
   * default image always silences it.
   */
  function RoleViolations(app: App): (r: seq<Violation>)
    ensures r == [] || r == [NoDefaultImage]
    ensures app.image.repoTag != "" ==> r == []
    ensures r == [] <==>
      app.image.repoTag != "" || forall i | 0 <= i < |app.nodeRoles| :: app.nodeRoles[i].image.repoTag != ""
  {
    if app.image.repoTag == "" && exists role | role in app.nodeRoles :: role.image.repoTag == "" then
      [NoDefaultImage]
    else
      []
  }

  method ValidateRoles(app: App) returns (errorMessages: seq<Violation>)
    ensures errorMessages == RoleViolations(app)
  {
    var i := 0;
    while i < |app.nodeRoles|
      invariant 0 <= i <= |app.nodeRoles|
      invariant app.image.repoTag == "" ==> forall k | 0 <= k < i :: app.nodeRoles[k].image.repoTag != ""
    {
      if app.nodeRoles[i].image.repoTag == "" {
        if app.image.repoTag == "" {
          return [NoDefaultImage];
        }
      }
      i := i + 1;
    }
    return [];
  }

  // ---------------------------------------------------------------------
  // A dashboard endpoint needs a URL scheme
  // ---------------------------------------------------------------------

  /** A dashboard endpoint that does not say its URL scheme. */
  predicate MissingUrlScheme(service: Service) {
    service.endpoint.isDashboard && service.endpoint.urlScheme == ""
  }

  /** The number of services whose dashboard endpoint lacks a URL scheme. */
  function CountMissingUrlScheme(services: seq<Service>): nat
  {
    if services == [] then 0
    else (if MissingUrlScheme(services[0]) then 1 else 0) + CountMissingUrlScheme(services[1..])
  }

  /** One message per dashboard service without a URL scheme, in service order. */
  function ServiceViolations(services: seq<Service>): seq<Violation>
  {
    if services == [] then []
    else
      (if MissingUrlScheme(services[0]) then [NoUrlScheme(services[0].id)] else []) +
      ServiceViolations(services[1..])
  }

  /** One message per dashboard service without a URL scheme. */
  lemma {:induction false} ServiceViolationsCount(services: seq<Service>)
    ensures |ServiceViolations(services)| == CountMissingUrlScheme(services)
  {
    if services != [] {
      ServiceViolationsCount(services[1..]);
    }
  }

  /** Each message names a dashboard service without a URL scheme. */
  lemma {:induction false} ServiceViolationsSound(services: seq<Service>)
    ensures forall v | v in ServiceViolations(services) ::
      v.NoUrlScheme? && exists i | 0 <= i < |services| ::
        services[i].id == v.dashboardId && MissingUrlScheme(services[i])
  {
    if services != [] {
      var rest := services[1..];
      ServiceViolationsSound(rest);
      assert forall i | 1 <= i < |services| :: services[i] == rest[i - 1];
    }
  }

  /** Every dashboard service without a URL scheme is named; so no message exactly when there is none. */
  lemma {:induction false} ServiceViolationsComplete(services: seq<Service>)
    ensures forall i | 0 <= i < |services| && MissingUrlScheme(services[i]) ::
      NoUrlScheme(services[i].id) in ServiceViolations(services)
    ensures ServiceViolations(services) == [] <==> forall i | 0 <= i < |services| :: !MissingUrlScheme(services[i])
  {
    if services != [] {
      var rest := services[1..];
      ServiceViolationsComplete(rest);
      assert forall i | 1 <= i < |services| :: services[i] == rest[i - 1];
    }
  }

  /** The messages of a list of services are those of its parts, in order. */
  lemma {:induction false} ServiceViolationsAppend(a: seq<Service>, b: seq<Service>)
    ensures ServiceViolations(a + b) == ServiceViolations(a) + ServiceViolations(b)
  {
    if a == [] {
      assert a + b == b;
    } else {
      assert (a + b)[1..] == a[1..] + b;
      ServiceViolationsAppend(a[1..], b);
    }
  }

  method ValidateServices(app: App) returns (errorMessages: seq<Violation>)
    ensures errorMessages == ServiceViolations(app.services)
  {
    errorMessages := [];
    var services := app.services;
    var i := 0;
    while i < |services|
      invariant 0 <= i <= |services|
      invariant errorMessages == ServiceViolations(services[..i])
    {
      var service := services[i];
      if service.endpoint.isDashboard {
        if service.endpoint.urlScheme == "" {
          errorMessages := errorMessages + [NoUrlScheme(service.id)];
        }
      }
      assert services[..i + 1] == services[..i] + [service];
      ServiceViolationsAppend(services[..i], [service]);
      i := i + 1;
    }
    assert services[..i] == services;
  }

  // ---------------------------------------------------------------------
  // The admission decision
  // ---------------------------------------------------------------------

  /** The admission response: the verdict, and the status message when one is set. */
  datatype Response = Response(allowed: bool, message: Option<string>)

  /**
   * One violation as a line of text. The template texts live outside this
   * model; each line names its template and its parameters, and is never empty.
   */
  function Render(v: Violation): (line: string)
    ensures line != ""
  {
    match v
    case NonUniqueRoleID => "nonUniqueRoleID"
    case NonUniqueServiceID => "nonUniqueServiceID"
    case NonUniqueSelectedRole => "nonUniqueSelectedRole"
    case NonUniqueServiceRole => "nonUniqueServiceRole"
    case InvalidNodeRoleID(id, valid) => "invalidNodeRoleID: " + id + " [" + Join(valid, ",") + "]"
    case InvalidServiceID(id, valid) => "invalidServiceID: " + id + " [" + Join(valid, ",") + "]"
    case InvalidSelectedRoleID(id, valid) => "invalidSelectedRoleID: " + id + " [" + Join(valid, ",") + "]"
    case NoDefaultImage => "noDefaultImage"
    case NoUrlScheme(id) => "noUrlScheme: " + id
  }

  /** The rendered lines of a list of violations. */
  function Lines(vs: seq<Violation>): (lines: seq<string>)
    ensures |lines| == |vs|
    ensures forall k | 0 <= k < |vs| :: lines[k] == Render(vs[k])
  {
    seq(|vs|, k requires 0 <= k < |vs| => Render(vs[k]))
  }

  /** A check's string result: its lines joined by newlines, empty exactly when it found nothing. */
  function Block(vs: seq<Violation>): (block: string)
    ensures block == "" <==> vs == []
  {
    Join(Lines(vs), "\n")
  }

  /** The results of the six checks on a decoded document, in the order they run. */
  function Checks(app: App, found: RoleLookup): seq<seq<Violation>>
  {
    var allRoleIds := AllRoleIDs(app);
    var allServiceIds := AllServiceIDs(app);
    [ UniquenessViolations(allRoleIds, allServiceIds),
      RefUniquenessViolations(app.config),
      ServiceRoleViolations(app.config.roleServices, allRoleIds, allServiceIds),
      SelectedRoleViolations(app, app.config.selectedRoles, found, allRoleIds),
      RoleViolations(app),
      ServiceViolations(app.services) ]
  }

  /** A check's contribution to the list of string results: its block, if it reported anything. */
  function Reported(check: seq<Violation>): seq<string>
  {
    if check == [] then [] else [Block(check)]
  }

  /** The non-empty string results of a run of checks, in check order. */
  function ReportedBlocks(checks: seq<seq<Violation>>): seq<string>
  {
    if checks == [] then [] else ReportedBlocks(checks[..|checks| - 1]) + Reported(checks[|checks| - 1])
  }

  /** All violations of a run of checks, in check order. */
  function Flatten(checks: seq<seq<Violation>>): seq<Violation>
  {
    if checks == [] then [] else Flatten(checks[..|checks| - 1]) + checks[|checks| - 1]
  }

  /** The admission decision for a decoded document. */
  function Decide(app: App, found: RoleLookup): (resp: Response)
    ensures resp.allowed <==> resp.message == None
  {
    var errorMessages := ReportedBlocks(Checks(app, found));
    if errorMessages == [] then Response(true, None)
    else Response(false, Some("\n" + Join(errorMessages, "\n")))
  }

  /** The admission decision for a decode outcome: a decode error rejects at once. */
  function Admit(decoded: Result<App, string>, found: RoleLookup): (resp: Response)
    ensures decoded.Failure? ==> resp == Response(false, Some("\n" + decoded.error))
    ensures resp.allowed <==> resp.message == None
  {
    match decoded
    case Failure(err) => Response(false, Some("\n" + err))
    case Success(app) => Decide(app, found)
  }

  /** Adds a check's string result to the collected ones when it is non-empty. */
  method AppendReported(errorMessages: seq<string>, check: seq<Violation>) returns (collected: seq<string>)
    ensures collected == errorMessages + Reported(check)
  {
    var err := Block(check);
    collected := errorMessages;
    if err != "" {
      collected := collected + [err];
    }
  }

  method AdmitAppCR(decoded: Result<App, string>, found: RoleLookup) returns (admitResponse: Response)
    ensures admitResponse == Admit(decoded, found)
  {
    var errorMessages: seq<string> := [];
    admitResponse := Response(false, None);
    if decoded.Failure? {
      admitResponse := admitResponse.(message := Some("\n" + decoded.error));
      return;
    }
    var app := decoded.value;
    var allRoleIds := AllRoleIDs(app);
    var allServiceIds := AllServiceIDs(app);

    // Declared role and service IDs must be duplicate-free.
    var uniqueness := ValidateUniqueness(allRoleIds, allServiceIds);
    errorMessages := AppendReported(errorMessages, uniqueness);

    // Selected roles and binding roles must each be named only once.
    var refUniqueness := ValidateRefUniqueness(app);
    errorMessages := AppendReported(errorMessages, refUniqueness);

    // Every role and service a binding names must be declared.
    var serviceRole := ValidateServiceRoles(app, allRoleIds, allServiceIds);
    errorMessages := AppendReported(errorMessages, serviceRole);

    // Every selected role must resolve through the lookup.
    var selectedRole := ValidateSelectedRoles(app, found, allRoleIds);
    errorMessages := AppendReported(errorMessages, selectedRole);

    // Every role needs an image of its own or a default image.
    var roles := ValidateRoles(app);
    errorMessages := AppendReported(errorMessages, roles);

    // Every dashboard endpoint needs a URL scheme.
    var services := ValidateServices(app);
    errorMessages := AppendReported(errorMessages, services);

    assert Checks(app, found) == [uniqueness, refUniqueness, serviceRole, selectedRole, roles, services];
    ReportedBlocksOfSix(uniqueness, refUniqueness, serviceRole, selectedRole, roles, services);
    assert Admit(decoded, found) == Decide(app, found);
    if |errorMessages| == 0 {
      admitResponse := admitResponse.(allowed := true);
    } else {
      admitResponse := admitResponse.(message := Some("\n" + Join(errorMessages, "\n")));
    }
  }

  // ---------------------------------------------------------------------
  // Properties of the admission decision
  // ---------------------------------------------------------------------

  /** The string results of the six checks, unfolded in the order they are appended. */
  lemma ReportedBlocksOfSix(c0: seq<Violation>, c1: seq<Violation>, c2: seq<Violation>,
                            c3: seq<Violation>, c4: seq<Violation>, c5: seq<Violation>)
    ensures ReportedBlocks([c0, c1, c2, c3, c4, c5]) ==
            [] + Reported(c0) + Reported(c1) + Reported(c2) + Reported(c3) + Reported(c4) + Reported(c5)
  {
    var s6 := [c0, c1, c2, c3, c4, c5];
    var s5 := [c0, c1, c2, c3, c4];
    var s4 := [c0, c1, c2, c3];
    var s3 := [c0, c1, c2];
    var s2 := [c0, c1];
    var s1 := [c0];
    var s0: seq<seq<Violation>> := [];
    assert s6[..5] == s5 && s5[..4] == s4 && s4[..3] == s3 && s3[..2] == s2 && s2[..1] == s1 && s1[..0] == s0;
    assert ReportedBlocks(s1) == ReportedBlocks(s0) + Reported(c0);
    assert ReportedBlocks(s2) == ReportedBlocks(s1) + Reported(c1);
    assert ReportedBlocks(s3) == ReportedBlocks(s2) + Reported(c2);
    assert ReportedBlocks(s4) == ReportedBlocks(s3) + Reported(c3);
    assert ReportedBlocks(s5) == ReportedBlocks(s4) + Reported(c4);
    assert ReportedBlocks(s6) == ReportedBlocks(s5) + Reported(c5);
  }

  /** No violation at all exactly when every check reported nothing. */
  lemma {:induction false} FlattenEmpty(checks: seq<seq<Violation>>)
    ensures Flatten(checks) == [] <==> forall k | 0 <= k < |checks| :: checks[k] == []
  {
    if checks != [] {
      var init := checks[..|checks| - 1];
      FlattenEmpty(init);
      assert forall k | 0 <= k < |init| :: checks[k] == init[k];
    }
  }

  /** Rendering distributes over concatenation. */
  lemma LinesAppend(a: seq<Violation>, b: seq<Violation>)
    ensures Lines(a + b) == Lines(a) + Lines(b)
  {
    assert forall k | 0 <= k < |a + b| :: Lines(a + b)[k] == (Lines(a) + Lines(b))[k];
  }

  /**
   * Joining the non-empty blocks gives the same text as joining every
   * violation's line: each violation is one line, in check order.
   */
  lemma {:induction false} ReportedBlocksJoin(checks: seq<seq<Violation>>)
    ensures ReportedBlocks(checks) == [] <==> Flatten(checks) == []
    ensures Join(ReportedBlocks(checks), "\n") == Join(Lines(Flatten(checks)), "\n")
  {
    if checks != [] {
      var init, last := checks[..|checks| - 1], checks[|checks| - 1];
      ReportedBlocksJoin(init);
      assert ReportedBlocks(checks) == ReportedBlocks(init) + Reported(last);
      assert Flatten(checks) == Flatten(init) + last;
      if last == [] {
        assert ReportedBlocks(checks) == ReportedBlocks(init);
        assert Flatten(checks) == Flatten(init);
      } else {
        var tail := [Block(last)];
        assert Join(tail, "\n") == Join(Lines(last), "\n");
        LinesAppend(Flatten(init), last);
        if Flatten(init) != [] {
          JoinAppend(ReportedBlocks(init), tail, "\n");
          JoinAppend(Lines(Flatten(init)), Lines(last), "\n");
        } else {
          assert ReportedBlocks(checks) == tail;
          assert Lines(Flatten(init)) == [];
          assert Flatten(checks) == last;
        }
      }
    }
  }

  /**
   * A decoded document is admitted exactly when none of the six checks
   * reports anything, and then no status message is set.
   */
  lemma AdmitAllowed(app: App, found: RoleLookup)
    ensures var checks := Checks(app, found);
      Admit(Success(app), found).allowed <==> forall k | 0 <= k < |checks| :: checks[k] == []
  {
    var checks := Checks(app, found);
    ReportedBlocksJoin(checks);
    FlattenEmpty(checks);
  }

  /**
   * A rejected document's message is a newline followed by one line per
   * violation, checks in the order uniqueness, reference uniqueness,
   * service/role references, selected roles, roles, services.
   */
  lemma AdmitRejectionMessage(app: App, found: RoleLookup)
    ensures var resp := Admit(Success(app), found);
      !resp.allowed ==> resp.message == Some("\n" + Join(Lines(Flatten(Checks(app, found))), "\n"))
  {
    ReportedBlocksJoin(Checks(app, found));
  }

  /**
   * The consistency a document must have: declared IDs unique, config
   * references unique and declared, selected roles resolvable, an image for
   * every role, and a URL scheme for every dashboard.
   */
  predicate AppIsValid(app: App, found: RoleLookup) {
    var allRoleIds := AllRoleIDs(app);
    var allServiceIds := AllServiceIDs(app);
    && IsUnique(allRoleIds)
    && IsUnique(allServiceIds)
    && IsUnique(app.config.selectedRoles)
    && !SharesRoleId(app.config.roleServices)
    && ReferencesDeclared(app.config.roleServices, allRoleIds, allServiceIds)
    && (forall x | x in app.config.selectedRoles :: found(app, x))
    && (app.image.repoTag != "" || forall i | 0 <= i < |app.nodeRoles| :: app.nodeRoles[i].image.repoTag != "")
    && (forall i | 0 <= i < |app.services| :: !MissingUrlScheme(app.services[i]))
  }

  /** Each check reports nothing exactly when its part of the document's consistency holds. */
  lemma ChecksEmpty(app: App, found: RoleLookup)
    ensures var checks := Checks(app, found);
      var allRoleIds := AllRoleIDs(app);
      var allServiceIds := AllServiceIDs(app);
      && (checks[0] == [] <==> IsUnique(allRoleIds) && IsUnique(allServiceIds))
      && (checks[1] == [] <==> IsUnique(app.config.selectedRoles) && !SharesRoleId(app.config.roleServices))
      && (checks[2] == [] <==> ReferencesDeclared(app.config.roleServices, allRoleIds, allServiceIds))
      && (checks[3] == [] <==> forall x | x in app.config.selectedRoles :: found(app, x))
      && (checks[4] == [] <==>
          app.image.repoTag != "" || forall i | 0 <= i < |app.nodeRoles| :: app.nodeRoles[i].image.repoTag != "")
      && (checks[5] == [] <==> forall i | 0 <= i < |app.services| :: !MissingUrlScheme(app.services[i]))
  {
    var allRoleIds := AllRoleIDs(app);
    var allServiceIds := AllServiceIDs(app);
    var checks := Checks(app, found);
    assert checks[0] == [] <==> IsUnique(allRoleIds) && IsUnique(allServiceIds) by {
      UniquenessViolationsReport(allRoleIds, allServiceIds);
    }
    assert checks[1] == [] <==> IsUnique(app.config.selectedRoles) && !SharesRoleId(app.config.roleServices) by {
      RefUniquenessViolationsReport(app.config);
    }
    assert checks[2] == [] <==> ReferencesDeclared(app.config.roleServices, allRoleIds, allServiceIds) by {
      ServiceRoleViolationsEmpty(app.config.roleServices, allRoleIds, allServiceIds);
    }
    assert checks[3] == [] <==> forall x | x in app.config.selectedRoles :: found(app, x) by {
      SelectedRoleViolationsComplete(app, app.config.selectedRoles, found, allRoleIds);
    }
    assert checks[5] == [] <==> forall i | 0 <= i < |app.services| :: !MissingUrlScheme(app.services[i]) by {
      ServiceViolationsComplete(app.services);
    }
  }

  /** A decoded document is admitted exactly when it is consistent. */
  lemma AdmitAcceptsExactlyValid(app: App, found: RoleLookup)
    ensures Admit(Success(app), found).allowed <==> AppIsValid(app, found)
  {
    var checks := Checks(app, found);
    AdmitAllowed(app, found);
    assert (forall k | 0 <= k < |checks| :: checks[k] == []) <==>
      checks[0] == [] && checks[1] == [] && checks[2] == [] && checks[3] == [] && checks[4] == [] && checks[5] == [];
    ChecksEmpty(app, found);
  }

  /** A violation reported by one check is among all violations. */
  lemma {:induction false} FlattenHas(checks: seq<seq<Violation>>, k: nat, v: Violation)
    requires k < |checks| && v in checks[k]
    ensures v in Flatten(checks)
  {
    var init := checks[..|checks| - 1];
    if k < |init| {
      assert init[k] == checks[k];
      FlattenHas(init, k, v);
    }
  }

  /** A violation only one check can report occurs among all violations as often as in that check. */
  lemma {:induction false} FlattenMultiplicity(checks: seq<seq<Violation>>, k: nat, v: Violation)
    requires k < |checks|
    requires forall j | 0 <= j < |checks| && j != k :: v !in checks[j]
    ensures multiset(Flatten(checks))[v] == multiset(checks[k])[v]
  {
    var init, last := checks[..|checks| - 1], checks[|checks| - 1];
    assert multiset(Flatten(checks)) == multiset(Flatten(init)) + multiset(last);
    if k < |init| {
      assert forall j | 0 <= j < |init| && j != k :: init[j] == checks[j];
      FlattenMultiplicity(init, k, v);
      assert v !in last;
    } else {
      FlattenEmptyOf(init, v);
    }
  }

  /** A violation no check reports is not among all violations. */
  lemma {:induction false} FlattenEmptyOf(checks: seq<seq<Violation>>, v: Violation)
    requires forall j | 0 <= j < |checks| :: v !in checks[j]
    ensures v !in Flatten(checks)
  {
    if checks != [] {
      var init := checks[..|checks| - 1];
      assert forall j | 0 <= j < |init| :: init[j] == checks[j];
      FlattenEmptyOf(init, v);
    }
  }

  /** Two roles with the same ID: the document is rejected with the non-unique-role message. */
  lemma DuplicateRoleRejected(app: App, found: RoleLookup, i: nat, j: nat)
    requires i < j < |app.nodeRoles| && app.nodeRoles[i].id == app.nodeRoles[j].id
    ensures !Admit(Success(app), found).allowed
    ensures NonUniqueRoleID in Flatten(Checks(app, found))
  {
    var checks := Checks(app, found);
    var allRoleIds := AllRoleIDs(app);
    var allServiceIds := AllServiceIDs(app);
    assert allRoleIds[i] == allRoleIds[j];
    UniquenessViolationsReport(allRoleIds, allServiceIds);
    assert NonUniqueRoleID in checks[0];
    FlattenHas(checks, 0, NonUniqueRoleID);
    AdmitAllowed(app, found);
  }

  /**
   * A binding naming an undeclared role: the document is rejected, and the
   * message names that role together with the declared role IDs.
   */
  lemma UndeclaredBindingRoleRejected(app: App, found: RoleLookup, i: nat)
    requires i < |app.config.roleServices| && app.config.roleServices[i].roleId !in AllRoleIDs(app)
    ensures !Admit(Success(app), found).allowed
    ensures InvalidNodeRoleID(app.config.roleServices[i].roleId, AllRoleIDs(app)) in Flatten(Checks(app, found))
  {
    var checks := Checks(app, found);
    var v := InvalidNodeRoleID(app.config.roleServices[i].roleId, AllRoleIDs(app));
    assert checks[2] == ServiceRoleViolations(app.config.roleServices, AllRoleIDs(app), AllServiceIDs(app));
    assert v in checks[2] by {
      ServiceRoleViolationsComplete(app.config.roleServices, AllRoleIDs(app), AllServiceIDs(app));
    }
    FlattenHas(checks, 2, v);
    AdmitAllowed(app, found);
  }

  /** Only the role check can report the no-default-image message. */
  lemma NoDefaultImageOnlyFromRoles(app: App, found: RoleLookup)
    ensures var checks := Checks(app, found);
      forall k | 0 <= k < |checks| && k != 4 :: NoDefaultImage !in checks[k]
  {
    var checks := Checks(app, found);
    var allRoleIds := AllRoleIDs(app);
    var allServiceIds := AllServiceIDs(app);
    assert NoDefaultImage !in checks[2] by {
      assert checks[2] == ServiceRoleViolations(app.config.roleServices, allRoleIds, allServiceIds);
      ServiceRoleViolationsSound(app.config.roleServices, allRoleIds, allServiceIds);
    }
    assert NoDefaultImage !in checks[3] by {
      assert checks[3] == SelectedRoleViolations(app, app.config.selectedRoles, found, allRoleIds);
      SelectedRoleViolationsSound(app, app.config.selectedRoles, found, allRoleIds);
    }
    assert NoDefaultImage !in checks[5] by {
      assert checks[5] == ServiceViolations(app.services);
      ServiceViolationsSound(app.services);
    }
  }

  /**
   * Without a default image, a role without an image rejects the document
   * with exactly one no-default-image message, however many roles lack one.
   */
  lemma MissingImageReportedOnce(app: App, found: RoleLookup, i: nat)
    requires app.image.repoTag == ""
    requires i < |app.nodeRoles| && app.nodeRoles[i].image.repoTag == ""
    ensures !Admit(Success(app), found).allowed
    ensures multiset(Flatten(Checks(app, found)))[NoDefaultImage] == 1
  {
    var checks := Checks(app, found);
    assert checks[4] == [NoDefaultImage];
    NoDefaultImageOnlyFromRoles(app, found);
    FlattenMultiplicity(checks, 4, NoDefaultImage);
    AdmitAllowed(app, found);
  }
}
