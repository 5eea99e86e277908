/** The no-op stats component of the SPI: it always reports DISABLED, and once its state
    has been read, setting the state is refused. */
module SpiStatsComponent {
  import opened Wrappers
  import opened StatsTypes
  import ViewRegistry

  const AlreadyReadMessage: string := "State was already read, cannot set state."

  /** The no-op export component: it owns one no-op view manager. */
  class NoopExportComponent {
    const viewManager: ViewRegistry.NoopViewManager

    constructor ()
      ensures fresh(viewManager) && viewManager.Valid()
      ensures viewManager.registeredViews == map[] && viewManager.exportedViews == None
    {
      viewManager := new ViewRegistry.NoopViewManager();
    }

    /** `getViewManager`: always the same manager. */
    method GetViewManager() returns (vm: ViewRegistry.NoopViewManager)
      ensures vm == viewManager
    {
      vm := viewManager;
    }
  }

  class NoopSpiStatsComponent {
    const exportComponent: NoopExportComponent
    /** Set by the first `getState`, never cleared. */
    var isRead: bool

    /** A new component is unread, and its export component holds a new, empty no-op view
        manager. */
    constructor ()
      ensures !isRead && fresh(exportComponent) && fresh(exportComponent.viewManager)
      ensures exportComponent.viewManager.Valid()
      ensures exportComponent.viewManager.registeredViews == map[]
      ensures exportComponent.viewManager.exportedViews == None
    {
      exportComponent := new NoopExportComponent();
      isRead := false;
    }

    /** `getExportComponent`: the one export component made with this object. */
    method GetExportComponent() returns (e: NoopExportComponent)
      ensures e == exportComponent
    {
      e := exportComponent;
    }

    /** `getState`: closes the latch and reports DISABLED. */
    method GetState() returns (s: StatsCollectionState)
      modifies this`isRead
      ensures isRead && s == DISABLED
    {
      isRead := true;
      s := DISABLED;
    }

    /** `setState`: null is refused first; after a read every call is refused; otherwise
        the call is accepted and changes nothing. */
    method SetState(state: Option<StatsCollectionState>) returns (r: Outcome)
      ensures state == None ==> r == Fail(NullPointer("state"))
      ensures state.Some? ==> (r == Pass <==> !isRead)
      ensures state.Some? && isRead ==> r == Fail(IllegalState(AlreadyReadMessage))
    {
      if state == None {
        return Fail(NullPointer("state"));
      }
      if isRead {
        return Fail(IllegalState(AlreadyReadMessage));
      }
      r := Pass;
    }
  }

  /** The component's tests, as a client sees them through the contracts: a set before any
      read is accepted and ignored, and every set after a read is refused. The view manager
      handed out through the export component is a usable, empty registry. */
  method LatchScenario(view: View)
  {
    var component := new NoopSpiStatsComponent();
    var before := component.SetState(Some(ENABLED));
    assert before == Pass;
    var s := component.GetState();
    assert s == DISABLED;
    var after := component.SetState(Some(ENABLED));
    assert after == Fail(IllegalState(AlreadyReadMessage));
    var s2 := component.GetState();
    var stillRefused := component.SetState(Some(DISABLED));
    assert stillRefused.Fail?;
    var e1 := component.GetExportComponent();
    var e2 := component.GetExportComponent();
    assert e1 == e2;
    var vm := e1.GetViewManager();
    var registered := vm.RegisterView(Some(view));
    assert registered == Pass && vm.registeredViews == map[view.name := view];
  }
}
