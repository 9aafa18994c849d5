/**
 * The system health panel: six checks pushed one after another onto a list (database, authentication,
 * the exchange-rate API, page load time, mobile support, security configuration), and an overall status
 * that is the worst of them. What each probe observed is a parameter.
 */
module SystemHealth {
  import opened Wrappers

  datatype Status = Healthy | Warning | Error

  datatype Component =
    | DatabaseConnection | AuthenticationSystem | ExternalApis | FrontendPerformance | MobileCompatibility
    | SecurityConfiguration

  datatype HealthCheck = HealthCheck(component: Component, status: Status, responseTime: Option<int>)

  /** How the database probe ended: an answer, an answer carrying an error, or an exception. */
  datatype DatabaseProbe = DbAnswered | DbReturnedError | DbThrew

  /** How the exchange-rate probe ended: an ok response, another response, or an exception. */
  datatype ApiProbe = ApiOk | ApiNotOk | ApiThrew

  /** The order in which the checks are pushed. */
  const CheckOrder: seq<Component> :=
    [DatabaseConnection, AuthenticationSystem, ExternalApis, FrontendPerformance, MobileCompatibility, SecurityConfiguration]

  /** The page-load classification: under 2 s healthy, under 5 s a warning, otherwise an error. */
  function LoadTimeStatus(loadTime: int): (s: Status)
    ensures s == Healthy <==> loadTime < 2000
    ensures s == Warning <==> 2000 <= loadTime < 5000
    ensures s == Error <==> loadTime >= 5000
  {
    if loadTime < 2000 then Healthy else if loadTime < 5000 then Warning else Error
  }

  /** How bad a status is. */
  function Severity(s: Status): nat {
    match s
    case Healthy => 0
    case Warning => 1
    case Error => 2
  }

  predicate AnyWith(checks: seq<HealthCheck>, s: Status) {
    exists i :: 0 <= i < |checks| && checks[i].status == s
  }

  /** The roll-up: an error if any check failed, otherwise a warning if any warned, otherwise healthy. */
  function Overall(checks: seq<HealthCheck>): (r: Status)
    ensures r == Error <==> AnyWith(checks, Error)
    ensures r == Warning <==> !AnyWith(checks, Error) && AnyWith(checks, Warning)
    ensures r == Healthy <==> !AnyWith(checks, Error) && !AnyWith(checks, Warning)
  {
    if AnyWith(checks, Error) then Error else if AnyWith(checks, Warning) then Warning else Healthy
  }

  /** The roll-up is the most severe status among the checks (healthy for no checks). */
  lemma OverallIsWorst(checks: seq<HealthCheck>)
    ensures forall i :: 0 <= i < |checks| ==> Severity(checks[i].status) <= Severity(Overall(checks))
    ensures checks != [] ==> exists i :: 0 <= i < |checks| && checks[i].status == Overall(checks)
  {
    forall i | 0 <= i < |checks| ensures Severity(checks[i].status) <= Severity(Overall(checks)) {
      if checks[i].status == Error {
        assert AnyWith(checks, Error);
      } else if checks[i].status == Warning {
        assert AnyWith(checks, Warning);
      }
    }
    if checks != [] && Overall(checks) == Healthy {
      assert checks[0].status == Healthy;
    }
  }

  /** For the six checks of the panel, "some check has status `s`" spelled out entry by entry. */
  lemma AnyWithOfSix(checks: seq<HealthCheck>, s: Status)
    requires |checks| == 6
    ensures AnyWith(checks, s) <==>
              checks[0].status == s || checks[1].status == s || checks[2].status == s ||
              checks[3].status == s || checks[4].status == s || checks[5].status == s
  {
    if AnyWith(checks, s) {
      var i :| 0 <= i < |checks| && checks[i].status == s;
      assert i in {0, 1, 2, 3, 4, 5};
    }
  }

  /**
   * `performHealthChecks`, given what each probe observed and the measured times. The authentication
   * probe only fails by throwing; the mobile and security entries are always healthy.
   */
  method PerformHealthChecks(db: DatabaseProbe, dbTime: int, authThrows: bool, api: ApiProbe, apiTime: int, loadTime: int)
    returns (checks: seq<HealthCheck>, overall: Status)
    ensures |checks| == 6 && forall i :: 0 <= i < 6 ==> checks[i].component == CheckOrder[i]
    ensures checks[0].status == Error <==> db != DbAnswered
    ensures checks[0].status != Warning
    ensures checks[0].responseTime == if db == DbThrew then None else Some(dbTime)
    ensures checks[1].status == if authThrows then Error else Healthy
    ensures checks[2].status == match api case ApiOk => Healthy case ApiNotOk => Warning case ApiThrew => Error
    ensures checks[2].responseTime == if api == ApiOk then Some(apiTime) else None
    ensures checks[3].status == LoadTimeStatus(loadTime) && checks[3].responseTime == Some(loadTime)
    ensures checks[4].status == Healthy && checks[5].status == Healthy
    ensures overall == Overall(checks)
    ensures overall == Healthy <==> db == DbAnswered && !authThrows && api == ApiOk && loadTime < 2000
    ensures overall == Error <==> db != DbAnswered || authThrows || api == ApiThrew || loadTime >= 5000
  {
    checks := [];
    match db {
      case DbAnswered => checks := checks + [HealthCheck(DatabaseConnection, Healthy, Some(dbTime))];
      case DbReturnedError => checks := checks + [HealthCheck(DatabaseConnection, Error, Some(dbTime))];
      case DbThrew => checks := checks + [HealthCheck(DatabaseConnection, Error, None)];
    }
    if authThrows {
      checks := checks + [HealthCheck(AuthenticationSystem, Error, None)];
    } else {
      checks := checks + [HealthCheck(AuthenticationSystem, Healthy, None)];
    }
    match api {
      case ApiOk => checks := checks + [HealthCheck(ExternalApis, Healthy, Some(apiTime))];
      case ApiNotOk => checks := checks + [HealthCheck(ExternalApis, Warning, None)];
      case ApiThrew => checks := checks + [HealthCheck(ExternalApis, Error, None)];
    }
    checks := checks + [HealthCheck(FrontendPerformance, LoadTimeStatus(loadTime), Some(loadTime))];
    checks := checks + [HealthCheck(MobileCompatibility, Healthy, None)];
    checks := checks + [HealthCheck(SecurityConfiguration, Healthy, None)];
    overall := Overall(checks);
    AnyWithOfSix(checks, Error);
    AnyWithOfSix(checks, Warning);
  }
}
