/** The authorisation store: one table per field, association tables as sets, rows keyed by the
    name on which the database puts a unique constraint. */
module Model {
  import opened Results
  import opened Entries

  datatype AppFunction = AppFunction(application: Name, description: Text, permissions: set<Name>)
  datatype DataPolicy = DataPolicy(application: Name, description: Text)
  datatype Function = Function(application: Option<Name>, description: Text, permissions: set<Name>)
  datatype Role = Role(description: Text, functions: set<Name>, children: set<Name>)
  datatype Profile = Profile(email: Text, firstName: Text, surname: Text, deleted: bool, deletedTime: Option<int>)
  datatype User = User(profile: Profile, roles: set<Name>)
  datatype Team = Team(description: Text, members: set<Name>, children: set<Name>, policies: set<Name>)

  datatype Store = Store(
    applications: set<Name>,
    apiResources: set<Name>,
    appFunctions: map<Name, AppFunction>,
    permissions: map<Name, Text>,
    dataPolicies: map<Name, DataPolicy>,
    functions: map<Name, Function>,
    roles: map<Name, Role>,
    users: map<Name, User>,
    teams: map<Name, Team>)

  const EMPTY := Store({}, {}, map[], map[], map[], map[], map[], map[], map[])

  /** Foreign keys of the role, user, team and application tables. */
  predicate WellFormed(s: Store) {
    && (forall f <- s.appFunctions ::
          s.appFunctions[f].application in s.applications && s.appFunctions[f].permissions <= s.permissions.Keys)
    && (forall p <- s.dataPolicies :: s.dataPolicies[p].application in s.applications)
    && (forall f <- s.functions ::
          && s.functions[f].permissions <= s.permissions.Keys
          && (s.functions[f].application.Some? ==> s.functions[f].application.value in s.applications))
    && (forall r <- s.roles :: s.roles[r].functions <= s.functions.Keys && s.roles[r].children <= s.roles.Keys)
    && (forall u <- s.users :: s.users[u].roles <= s.roles.Keys)
    && (forall t <- s.teams ::
          && s.teams[t].members <= s.users.Keys
          && s.teams[t].children <= s.teams.Keys
          && s.teams[t].policies <= s.dataPolicies.Keys)
  }

  /** The entity framework context shared by all repositories, one field per table. */
  class A3SContext {
    var applications: set<Name>
    var apiResources: set<Name>
    var appFunctions: map<Name, AppFunction>
    var permissions: map<Name, Text>
    var dataPolicies: map<Name, DataPolicy>
    var functions: map<Name, Function>
    var roles: map<Name, Role>
    var users: map<Name, User>
    var teams: map<Name, Team>

    function State(): Store
      reads this
    {
      Store(applications, apiResources, appFunctions, permissions, dataPolicies, functions, roles, users, teams)
    }
  }
}
