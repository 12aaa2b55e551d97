/** The app slice of src/redux/appReducer.ts. */
module AppState {
  /** `APP_ENV`, `APP_BUILDTIME` and `authenticated_user` start as `null`
      and no reducer writes them; their values are opaque here. */
  datatype AppState<V> = AppState(appEnv: V, appBuildTime: V, booted: bool, authenticatedUser: V)

  function InitialApp<V>(none: V): (s: AppState<V>)
    ensures !s.booted
  {
    AppState(none, none, false, none)
  }

  /** `appSetStatus`: marks the app booted and nothing else. */
  function AppSetStatus<V>(s: AppState<V>): (r: AppState<V>)
    ensures r.booted
    ensures r.appEnv == s.appEnv && r.appBuildTime == s.appBuildTime && r.authenticatedUser == s.authenticatedUser
  {
    s.(booted := true)
  }

  lemma AppSetStatusIdempotent<V>(s: AppState<V>)
    ensures AppSetStatus(AppSetStatus(s)) == AppSetStatus(s)
  {
  }

  /** The actions the slice's reducer sees: its own `appSetStatus`, and
      any action of another slice, which a Redux slice reducer returns
      the state for unchanged. */
  datatype AppAction = SetStatus | Other

  function Reduce<V>(s: AppState<V>, a: AppAction): AppState<V> {
    match a
    case SetStatus => AppSetStatus(s)
    case Other => s
  }

  function ReduceAll<V>(s: AppState<V>, actions: seq<AppAction>): AppState<V>
    decreases |actions|
  {
    if |actions| == 0 then s else ReduceAll(Reduce(s, actions[0]), actions[1..])
  }

  /** `appBoot()`: the actions the thunk dispatches. */
  function AppBoot(): (actions: seq<AppAction>)
    ensures |actions| == 1 && actions[0] == SetStatus
  {
    [SetStatus]
  }

  /** Running the boot thunk from the initial state leaves the app booted
      with its other fields as they were. */
  lemma BootBoots<V>(none: V)
    ensures ReduceAll(InitialApp(none), AppBoot()) == InitialApp(none).(booted := true)
  {
    assert AppBoot()[1..] == [];
  }

  /** Once booted, the app stays booted whatever is dispatched. */
  lemma {:induction false} BootedStays<V>(s: AppState<V>, actions: seq<AppAction>)
    requires s.booted
    ensures ReduceAll(s, actions).booted
  {
    ReduceAllBootsOnStatus(s, actions);
  }

  /** The app slice after any sequence of actions: booted exactly when it
      was booted already or a status action was dispatched, and every
      other field as it was. */
  lemma {:induction false} ReduceAllBootsOnStatus<V>(s: AppState<V>, actions: seq<AppAction>)
    ensures ReduceAll(s, actions).booted <==> s.booted || SetStatus in actions
    ensures ReduceAll(s, actions) == s.(booted := ReduceAll(s, actions).booted)
    decreases |actions|
  {
    if |actions| > 0 {
      ReduceAllBootsOnStatus(Reduce(s, actions[0]), actions[1..]);
      assert actions == [actions[0]] + actions[1..];
    }
  }

  /** Before the boot thunk runs, the other slices' actions leave the app
      unbooted. */
  lemma UnbootedWithoutStatus<V>(s: AppState<V>, actions: seq<AppAction>)
    requires !s.booted && SetStatus !in actions
    ensures ReduceAll(s, actions) == s
  {
    ReduceAllBootsOnStatus(s, actions);
  }
}
