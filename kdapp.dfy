/**
 * The KubeDirector application definition as the validator sees it, and the
 * catalog helpers that list the identifiers it declares.
 */
module KdApp {

  /** A container image reference; an empty repo tag means "not set". */
  datatype Image = Image(repoTag: string)

  /** A node role: its identifier and its own image (possibly unset). */
  datatype Role = Role(id: string, image: Image)

  /** How a service is exposed: whether it is a dashboard, and its URL scheme ("" when unset). */
  datatype Endpoint = Endpoint(isDashboard: bool, urlScheme: string)

  /** A service the application offers. */
  datatype Service = Service(id: string, endpoint: Endpoint)

  /** One entry of the config section's role_services: a role and the services bound to it. */
  datatype RoleServiceBinding = RoleServiceBinding(roleId: string, serviceIds: seq<string>)

  /** The config section: the selected roles and the role/service bindings. */
  datatype Config = Config(selectedRoles: seq<string>, roleServices: seq<RoleServiceBinding>)

  /** The spec of a KubeDirectorApp: roles, the default image, services and config. */
  datatype App = App(nodeRoles: seq<Role>, image: Image, services: seq<Service>, config: Config)

  /** `catalog.GetAllRoleIDs`: the declared role identifiers, in declaration order. */
  function AllRoleIDs(app: App): seq<string>
  {
    seq(|app.nodeRoles|, i requires 0 <= i < |app.nodeRoles| => app.nodeRoles[i].id)
  }

  /** `catalog.GetAllServiceIDs`: the declared service identifiers, in declaration order. */
  function AllServiceIDs(app: App): seq<string>
  {
    seq(|app.services|, i requires 0 <= i < |app.services| => app.services[i].id)
  }

  /**
   * `catalog.GetRoleFromID(app, id) != nil`: whether the document's own role
   * lookup resolves an identifier. Its resolution rules belong to the catalog,
   * so the validator receives it as a function value.
   */
  type RoleLookup = (App, string) -> bool
}
