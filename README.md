# KubeDirector application validator, modelled in Dafny

This project models the admission validator for KubeDirectorApp documents.
The validator decides whether a submitted application definition is accepted.
It runs six rule checks over the decoded document, each returning either
nothing or a newline-joined block of messages:

- the declared role IDs and service IDs are each duplicate-free;
- the config section's selected roles are duplicate-free, and no two
  role/service bindings name the same role (this check stops at the first
  repeated binding);
- every role and every service named by a binding is declared;
- every selected role resolves through the catalog's role lookup;
- every role has an image, unless the document has a default image (reported
  once, at the first role without one);
- every dashboard endpoint has a URL scheme.

The aggregator runs the checks in that fixed order. It accepts when none
reports anything. Otherwise it rejects with a newline followed by the
non-empty blocks joined by newlines. A document that cannot be decoded is
rejected at once with a newline followed by the decode error, and no check runs.

Layout:

- `wrappers.dfy` (`Wrappers`): `Option` and `Result`.
- `shared.dfy` (`Shared`): the list primitives the validator relies on.
  These are duplicate detection (`shared.ListIsUnique`), Go's `strings.Join`,
  and counting the entries missing from a list. Membership
  (`shared.StringInList`) is Dafny's `in`.
- `kdapp.dfy` (`KdApp`): the document (`App`, `Role`, `Image`, `Service`,
  `Endpoint`, `Config`, `RoleServiceBinding`), the catalog's ID lists, and the
  type of the role lookup.
- `app_validator.dfy` (`AppValidator`): the checks and the aggregator. It holds:
  - the `Violation` datatype, one constructor per message template with its
    parameters;
  - for each check, a specification function from the document to its
    violations, with lemmas about that function;
  - for each check, a method that builds the same list with the source's
    loops, early `break` and early `return`;
  - `AdmitAppCR`, proved equal to the decision function `Admit`.

## Model

| member | source | states |
|---|---|---|
| Shared.Join | pkg/validator/app.go:48 | Joining no entries gives the empty string; otherwise the first entry is a prefix of the result |
| Shared.JoinAppend | pkg/validator/app.go:248 | Joining two non-empty lists equals joining each and putting the separator between them, so joining the blocks of several checks equals joining all of their lines |
| Shared.CountNotIn | pkg/validator/app.go:86 | The number of entries missing from the valid list is at most the list's length, and is zero exactly when every entry is valid |
| Shared.CountNotInAppend | pkg/validator/app.go:85-104 | The count over a concatenation is the sum of the counts over the parts |
| Shared.IsUniqueSnoc | pkg/validator/app.go:60-67 | Appending a value keeps a list duplicate-free exactly when the list was duplicate-free and the value is new; this is the step the `roleSeen` loop takes |
| AppValidator.UniquenessViolations | pkg/validator/app.go:37-48 | The uniqueness check's violations: the role message when a declared role ID repeats, then the service message when a declared service ID repeats |
| AppValidator.UniquenessViolationsReport | pkg/validator/app.go:37-48 | The role message appears exactly when a role ID repeats and the service message exactly when a service ID repeats. No other message appears and neither repeats. When both fire, the role message comes first. Nothing is reported exactly when both lists are duplicate-free |
| AppValidator.ValidateUniqueness | pkg/validator/app.go:37-48 | Builds exactly the uniqueness check's violations, in its order |
| AppValidator.RefUniquenessViolations | pkg/validator/app.go:56-72 | The reference-uniqueness violations: the selected-role message when a selected role repeats, then the binding message once when the bindings' role IDs repeat |
| AppValidator.RefUniquenessViolationsReport | pkg/validator/app.go:56-72 | The selected-role message appears exactly when a selected role repeats, whatever the bindings are. The binding message appears exactly when two bindings share a role ID, at most once. When both fire, the selected-role message comes first. Nothing is reported exactly when neither condition holds |
| AppValidator.ValidateRefUniqueness | pkg/validator/app.go:56-72 | Builds exactly the reference-uniqueness violations. The loop keeps `roleSeen` holding exactly the role IDs of the bindings processed so far, and those IDs pairwise distinct. A repeat adds the binding message once and leaves the loop |
| AppValidator.ServiceIdViolations | pkg/validator/app.go:94-103 | One service message per service ID of a binding that is not declared, in list order, each carrying the declared service IDs |
| AppValidator.ServiceIdViolationsCount | pkg/validator/app.go:94-103 | A binding yields one service message per service ID that is not declared |
| AppValidator.ServiceIdViolationsSound | pkg/validator/app.go:94-103 | Each service message names an undeclared service ID of the binding together with the declared service IDs |
| AppValidator.ServiceIdViolationsComplete | pkg/validator/app.go:94-103 | Every undeclared service ID of the binding is named |
| AppValidator.ServiceIdViolationsAppend | pkg/validator/app.go:94-103 | The service messages of a concatenation are those of the first part followed by those of the second, in traversal order |
| AppValidator.BindingViolations | pkg/validator/app.go:86-103 | One binding's messages: the role message if its role is undeclared, then its service messages |
| AppValidator.ServiceRoleViolations | pkg/validator/app.go:84-109 | The service/role check's violations: the messages of each binding in turn, in binding order |
| AppValidator.ServiceRoleViolationsEmpty | pkg/validator/app.go:84-109 | Nothing is reported exactly when every role ID and every service ID named by the bindings is declared |
| AppValidator.ServiceRoleViolationsCount | pkg/validator/app.go:84-109 | The number of messages is the number of bindings with an undeclared role plus the number of undeclared service IDs across all bindings |
| AppValidator.ServiceRoleViolationsSound | pkg/validator/app.go:86-102 | Each message names a role ID of some binding, or a service ID bound by some binding, that is undeclared, together with the declared list it was checked against |
| AppValidator.ServiceRoleViolationsComplete | pkg/validator/app.go:86-102 | Every binding with an undeclared role and every undeclared service ID has its message |
| AppValidator.ServiceRoleViolationsAppend | pkg/validator/app.go:85-104 | The messages of a concatenation of bindings are those of the first part followed by those of the second, so each binding's messages follow in list order |
| AppValidator.ServiceRoleViolationsSnoc | pkg/validator/app.go:85-104 | Processing one more binding appends its role message, if any, followed by its service messages |
| AppValidator.ValidateServiceRoles | pkg/validator/app.go:84-109 | Builds exactly the service/role violations with the nested loops: each binding contributes its role message first, then its service messages |
| AppValidator.SelectedRoleViolations | pkg/validator/app.go:119-134 | One message per selected role the lookup does not resolve, in list order, each carrying the declared role IDs |
| AppValidator.SelectedRoleViolationsCount | pkg/validator/app.go:119-134 | One message per selected role the lookup does not resolve, with no short-circuit |
| AppValidator.SelectedRoleViolationsSound | pkg/validator/app.go:120-128 | Each message names a selected role the lookup does not resolve, together with the declared role IDs |
| AppValidator.SelectedRoleViolationsComplete | pkg/validator/app.go:119-134 | Every selected role that does not resolve is named. Nothing is reported exactly when every selected role resolves |
| AppValidator.SelectedRoleViolationsAppend | pkg/validator/app.go:120-129 | The messages of a concatenation are those of its parts in list order |
| AppValidator.ValidateSelectedRoles | pkg/validator/app.go:119-134 | Builds exactly the selected-role violations by one pass over the selected roles |
| AppValidator.RoleViolations | pkg/validator/app.go:144-151 | At most one message, the no-default-image message, however many roles lack an image. It fires exactly when the default image is unset and some role has none. A default image always silences it |
| AppValidator.ValidateRoles | pkg/validator/app.go:144-151 | The loop returns the no-default-image message at the first role without an image when no default image is set, and nothing otherwise |
| AppValidator.ServiceViolations | pkg/validator/app.go:161-177 | One message per dashboard service without a URL scheme, in service order, naming that service |
| AppValidator.ServiceViolationsCount | pkg/validator/app.go:161-177 | The number of messages equals the number of dashboard services without a URL scheme |
| AppValidator.ServiceViolationsSound | pkg/validator/app.go:162-171 | Each message names the ID of a dashboard service without a URL scheme |
| AppValidator.ServiceViolationsComplete | pkg/validator/app.go:161-177 | Every dashboard service without a URL scheme is named. Nothing is reported exactly when there is none |
| AppValidator.ServiceViolationsAppend | pkg/validator/app.go:162-172 | The messages of a concatenation of services are those of its parts, in service order |
| AppValidator.ValidateServices | pkg/validator/app.go:161-177 | Builds exactly the service violations by one pass over the services |
| AppValidator.Render | pkg/validator/app.go:87-91 | Every message is a non-empty line |
| AppValidator.Block | pkg/validator/app.go:45-48 | A check's string result is empty exactly when the check found nothing |
| AppValidator.Checks | pkg/validator/app.go:207-242 | The violations of the six checks on a decoded document, in the order the aggregator runs them |
| AppValidator.ReportedBlocks | pkg/validator/app.go:207-242 | The collected string results: the block of each check that reported something, in check order |
| AppValidator.Decide | pkg/validator/app.go:244-250 | For a decoded document, the response is accepting exactly when it carries no message |
| AppValidator.Admit | pkg/validator/app.go:188-252 | A decode failure rejects with a newline followed by the error, whatever the document. In every case the response accepts exactly when it carries no message |
| AppValidator.AppendReported | pkg/validator/app.go:208-211 | A check's block is appended to the collected results exactly when it is non-empty |
| AppValidator.AdmitAppCR | pkg/validator/app.go:188-252 | The method's response equals the decision `Admit`. A decode failure returns before any check runs. Otherwise the six checks run in the order uniqueness, reference uniqueness, service/role references, selected roles, roles, services, and the non-empty blocks are collected in that order |
| AppValidator.ReportedBlocksOfSix | pkg/validator/app.go:207-242 | The collected blocks are those of the six checks in the order they run, each present only if it is non-empty |
| AppValidator.ReportedBlocksJoin | pkg/validator/app.go:244-249 | No block is collected exactly when no check reported anything. The joined blocks have the same text as one line per violation, checks in order |
| AppValidator.AdmitAllowed | pkg/validator/app.go:244-246 | A decoded document is accepted exactly when all six checks report nothing |
| AppValidator.AdmitRejectionMessage | pkg/validator/app.go:246-249 | A rejected document's message is a newline followed by one line per violation, joined by newlines, checks in their fixed order |
| AppValidator.ChecksEmpty | pkg/validator/app.go:207-242 | Each check reports nothing exactly when its rule holds of the document |
| AppValidator.AdmitAcceptsExactlyValid | pkg/validator/app.go:188-252 | A decoded document is accepted exactly when all of these hold: declared IDs are unique, selected roles are unique, no two bindings share a role, all binding references are declared, all selected roles resolve, every role has an image or there is a default one, and every dashboard has a URL scheme |
| AppValidator.FlattenHas | pkg/validator/app.go:244-249 | A violation reported by any one check is part of the rejection |
| AppValidator.FlattenMultiplicity | pkg/validator/app.go:244-249 | A violation only one check can produce occurs in the rejection as often as in that check |
| AppValidator.DuplicateRoleRejected | pkg/validator/app.go:38-39 | Two roles with the same ID cause rejection, with the non-unique-role message |
| AppValidator.UndeclaredBindingRoleRejected | pkg/validator/app.go:86-92 | A binding naming an undeclared role causes rejection, with a message naming that role and the declared role IDs |
| AppValidator.NoDefaultImageOnlyFromRoles | pkg/validator/app.go:144-151 | No check other than the role check can produce the no-default-image message |
| AppValidator.MissingImageReportedOnce | pkg/validator/app.go:144-151 | Without a default image, a role without an image causes rejection, and the rejection holds the no-default-image message exactly once, however many roles lack an image |

## Left out

- JSON decoding of the request payload is not modelled. `Admit` and
  `AdmitAppCR` receive the decode outcome as a `Result<App, string>`, whose
  failure carries the decoder's error text.
- The Kubernetes admission review and response envelope is reduced to the
  `Response` record: the verdict, and the status message when one is set.
- The handler-state parameter of the aggregator is not modelled, because the
  logic never reads it. The document parameter of the uniqueness check is
  not modelled either, for the same reason.
- The catalog's `GetAllRoleIDs` and `GetAllServiceIDs` are not part of this
  model. They are modelled as the declared IDs in declaration order.
- The catalog's `GetRoleFromID` is not part of this model. It is a
  `RoleLookup` function value given to the checks. The model assumes nothing
  about it, not even that it agrees with the declared role IDs.
- The internals of `shared.ListIsUnique` and `shared.StringInList` are not
  modelled. They are stated directly as "no two positions hold equal values"
  and sequence membership.
- The message constants and their `fmt.Sprintf` formatting are defined
  outside the validator and are not part of this model.
  - Each message is a `Violation` carrying the same parameters.
  - `Render` gives a stand-in line that names the template and its parameters.
    Its only proved property is that the line is never empty.
- A decode failure's message is a newline followed by the decoder's error text
  (app.go:199).
- Render: states only that each line is non-empty. The real template texts
  are not available to this model.
