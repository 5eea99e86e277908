/** The base stats component of the implementation: reports and sets the collection state,
    clearing the recorded stats when collection turns off and resuming it when it turns on. */
module StatsComponentImpl {
  import opened Wrappers
  import StatsTypes

  /** The internal collection state (CurrentState.State). */
  datatype State = ENABLED | DISABLED

  /** `statsStateToState` */
  function StatsStateToState(s: StatsTypes.StatsCollectionState): State
  {
    if s == StatsTypes.ENABLED then ENABLED else DISABLED
  }

  /** `stateToStatsState` */
  function StateToStatsState(s: State): StatsTypes.StatsCollectionState
  {
    if s == ENABLED then StatsTypes.ENABLED else StatsTypes.DISABLED
  }

  /** The two conversions undo each other, in both directions. */
  lemma ConversionsInverse(a: StatsTypes.StatsCollectionState, b: State)
    ensures StateToStatsState(StatsStateToState(a)) == a
    ensures StatsStateToState(StateToStatsState(b)) == b
  {
  }

  /** The process-wide current state, as `setState` uses it: `set` stores the new state and
      reports whether it differed from the old one. */
  class CurrentState {
    var state: State

    constructor (initial: State)
      ensures state == initial
    {
      state := initial;
    }

    method Set(s: State) returns (changed: bool)
      modifies this
      ensures state == s && changed == (old(state) != s)
    {
      changed := state != s;
      state := s;
    }
  }

  /** The calls `setState` makes on the view manager. */
  datatype ViewManagerEvent = StatsCleared | CollectionResumed

  /** The full view manager, as far as `setState` drives it: a log of the calls it receives. */
  class ViewManagerImpl {
    ghost var events: seq<ViewManagerEvent>

    constructor ()
      ensures events == []
    {
      events := [];
    }

    method ClearStats()
      modifies this
      ensures events == old(events) + [StatsCleared]
    {
      events := events + [StatsCleared];
    }

    method ResumeStatsCollection()
      modifies this
      ensures events == old(events) + [CollectionResumed]
    {
      events := events + [CollectionResumed];
    }
  }

  /** The export component made in the constructor: it hands out the component's view manager. */
  class ImplExportComponent {
    const viewManager: ViewManagerImpl

    constructor (viewManager: ViewManagerImpl)
      ensures this.viewManager == viewManager
    {
      this.viewManager := viewManager;
    }

    method GetViewManager() returns (vm: ViewManagerImpl)
      ensures vm == viewManager
    {
      vm := viewManager;
    }
  }

  /** The event, if any, a `setState(newState)` sends when the state was `current`. */
  function SetStateEvents(current: State, newState: StatsTypes.StatsCollectionState): seq<ViewManagerEvent>
  {
    if current == StatsStateToState(newState) then []
    else if newState == StatsTypes.DISABLED then [StatsCleared]
    else [CollectionResumed]
  }

  /** A change of state sends exactly one event, clearing on DISABLED and resuming on ENABLED;
      no change sends none. */
  lemma SetStateEventsCases(current: State, newState: StatsTypes.StatsCollectionState)
    ensures |SetStateEvents(current, newState)| <= 1
    ensures SetStateEvents(current, newState) == []
        <==> StateToStatsState(current) == newState
    ensures newState == StatsTypes.DISABLED && current == ENABLED ==>
              SetStateEvents(current, newState) == [StatsCleared]
    ensures newState == StatsTypes.ENABLED && current == DISABLED ==>
              SetStateEvents(current, newState) == [CollectionResumed]
  {
  }

  class SpiStatsComponentImplBase {
    const currentState: CurrentState
    const viewManager: ViewManagerImpl
    const exportComponent: ImplExportComponent

    /** The export component hands out this component's view manager. */
    ghost predicate Valid()
    {
      exportComponent.viewManager == viewManager
    }

    constructor (currentState: CurrentState)
      ensures Valid()
      ensures this.currentState == currentState
      ensures fresh(viewManager) && viewManager.events == []
      ensures fresh(exportComponent) && exportComponent.viewManager == viewManager
    {
      this.currentState := currentState;
      var vm := new ViewManagerImpl();
      viewManager := vm;
      exportComponent := new ImplExportComponent(vm);
    }

    /** `getExportComponent`: its view manager is always the one made in the constructor. */
    method GetExportComponent() returns (e: ImplExportComponent)
      requires Valid()
      ensures e == exportComponent && e.viewManager == viewManager
    {
      e := exportComponent;
    }

    /** `getState`: the current state, converted. */
    method GetState() returns (s: StatsTypes.StatsCollectionState)
      ensures StatsStateToState(s) == currentState.state
    {
      s := StateToStatsState(currentState.state);
    }

    /** `setState`: null is refused before anything changes; otherwise the state is stored
        and, only if it changed, the view manager clears (DISABLED) or resumes (ENABLED). */
    method SetState(newState: Option<StatsTypes.StatsCollectionState>) returns (r: Outcome)
      modifies currentState, viewManager
      ensures newState == None ==>
                r == Fail(NullPointer("newState")) && unchanged(currentState, viewManager)
      ensures newState.Some? ==> r == Pass && currentState.state == StatsStateToState(newState.value)
      ensures newState.Some? ==>
                viewManager.events
                == old(viewManager.events) + SetStateEvents(old(currentState.state), newState.value)
    {
      if newState == None {
        return Fail(NullPointer("newState"));
      }
      var stateChanged := currentState.Set(StatsStateToState(newState.value));
      if stateChanged {
        if newState.value == StatsTypes.DISABLED {
          viewManager.ClearStats();
        } else {
          viewManager.ResumeStatsCollection();
        }
      }
      r := Pass;
    }
  }
}
