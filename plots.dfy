/**
  The plot history of the IDE graphics device: a list of plots with an
  "active" cursor that is either one of them or, only when the list is
  empty, past the end. Each plot remembers whether its drawing has changed
  since it was last rendered.

  The cursor is an index into `plots`; the index `|plots|` stands for the
  end iterator.
 */
module Plots {

  /** The device callbacks a redraw issues that the history sees: a page start or a mode change. */
  datatype DeviceCall = PageCall | ModeCall

  /** One page of graphics output. */
  class Plot {
    /** `_has_pending_render`: drawn to since the last render. */
    var pendingRender: bool
    /** How many times `render` has saved this plot's drawing and sent it to the client. */
    var renders: nat

    /** A new plot has nothing to render and has sent nothing. */
    constructor ()
      ensures !pendingRender && renders == 0
    {
      pendingRender := false;
      renders := 0;
    }

    /** `set_pending_render`; the time stamp it also records is left out. */
    method SetPendingRender()
      modifies this`pendingRender
      ensures pendingRender
    {
      pendingRender := true;
    }

    /** `render`: nothing when nothing is pending; otherwise one image is sent and nothing is pending any more. */
    method Render()
      modifies this
      ensures !pendingRender
      ensures renders == old(renders) + if old(pendingRender) then 1 else 0
    {
      if !pendingRender {
        return;
      }
      pendingRender := false;
      renders := renders + 1;
    }
  }

  class PlotHistory {
    /** `_plots`, oldest first. */
    var plots: seq<Plot>
    /** The position of `_active_plot`; `|plots|` is the end iterator. */
    var active: nat
    /** `_replaying`: set while a stored plot is being redrawn. */
    var replaying: bool

    /** The active plot is past the end exactly when there are no plots. */
    ghost predicate Valid()
      reads this
    {
      active <= |plots| && (active == |plots| <==> plots == [])
    }

    /** `plot_history(dd)`: an empty history, not replaying. */
    constructor ()
      ensures Valid() && plots == [] && !replaying
    {
      plots := [];
      active := 0;
      replaying := false;
    }

    /** `plot_count`. */
    function PlotCount(): (n: nat)
      reads this
      ensures n == |plots|
    {
      |plots|
    }

    /** `active_plot_index`: -1 for none, otherwise the position of the active plot. */
    function ActivePlotIndex(): (i: int)
      reads this
      requires Valid()
      ensures i == -1 <==> PlotCount() == 0
      ensures i != -1 ==> 0 <= i < PlotCount() && i == active
    {
      if active == |plots| then -1 else active
    }

    /** `move_next`: one step on when a later plot exists, otherwise nothing. */
    method MoveNext()
      requires Valid()
      modifies this`active
      ensures Valid()
      ensures active == if old(active) + 1 < |plots| then old(active) + 1 else old(active)
    {
      if active != |plots| {
        var next := active + 1;
        if next != |plots| {
          active := next;
        }
      }
    }

    /** `move_previous`: one step back unless at the first plot. */
    method MovePrevious()
      requires Valid()
      modifies this`active
      ensures Valid()
      ensures active == if old(active) > 0 then old(active) - 1 else old(active)
    {
      if active != 0 {
        active := active - 1;
      }
    }

    /** `append`: the plot joins the end of the history and becomes the active one. */
    method Append(p: Plot)
      requires Valid()
      modifies this`plots, this`active
      ensures Valid()
      ensures plots == old(plots) + [p] && active == |plots| - 1
    {
      plots := plots + [p];
      active := |plots| - 1;
    }

    /** `clear`: no plots and no active plot. */
    method Clear()
      requires Valid()
      modifies this`plots, this`active
      ensures Valid()
      ensures plots == [] && ActivePlotIndex() == -1
    {
      plots := [];
      active := 0;
    }

    /**
      `remove_active`: the active plot leaves the history; the plot that
      followed it becomes active, or the new last one when the last was
      removed. Nothing happens to an empty history.
     */
    method RemoveActive()
      requires Valid()
      modifies this`plots, this`active
      ensures Valid()
      ensures old(plots) == [] ==> plots == [] && active == old(active)
      ensures old(plots) != [] ==> plots == old(plots)[..old(active)] + old(plots)[old(active) + 1..]
      ensures old(plots) != [] && plots != [] ==> active == if old(active) < |plots| then old(active) else |plots| - 1
    {
      if active != |plots| {
        plots := plots[..active] + plots[active + 1..];
        if active == |plots| && |plots| > 0 {
          active := active - 1;
        }
      }
    }

    /**
      `new_page`: outside a replay, the previous active plot is rendered if it
      has changed (its snapshot is kept as well, which is left out) and a new,
      empty plot is appended. During a replay nothing happens.
     */
    method NewPage()
      requires Valid()
      modifies this`plots, this`active, if active < |plots| then {plots[active]} else {}
      ensures Valid()
      ensures old(replaying) ==> plots == old(plots) && active == old(active)
      ensures old(replaying) && old(active) < |old(plots)| ==> unchanged(old(plots)[old(active)])
      ensures !old(replaying) ==>
        |plots| == |old(plots)| + 1 && plots[..|old(plots)|] == old(plots) && fresh(plots[|old(plots)|])
      ensures !old(replaying) ==> active == |plots| - 1 && !plots[active].pendingRender && plots[active].renders == 0
      ensures !old(replaying) && old(active) < |old(plots)| ==>
        var previous := old(plots)[old(active)];
        !previous.pendingRender && previous.renders == old(previous.renders) + if old(previous.pendingRender) then 1 else 0
    {
      if !replaying {
        if active < |plots| {
          var previous := plots[active];
          if previous.pendingRender {
            previous.Render();
          }
        }
        var p := new Plot();
        Append(p);
      }
    }

    /** The constructor of `replay_mode`: a replay begins. */
    method BeginReplay()
      modifies this`replaying
      ensures replaying
    {
      replaying := true;
    }

    /** The destructor of `replay_mode`: the replay is over, whatever was replaying before. */
    method EndReplay()
      modifies this`replaying
      ensures !replaying
    {
      replaying := false;
    }

    /**
      A redraw while replaying: each `DeviceCall` of the drawing reaches the
      device in order. A page start adds nothing during a replay, and a mode
      change marks the active plot as changed, as `ide_device::mode` does
      whether or not a replay is going on.
     */
    method Redraw(calls: seq<DeviceCall>)
      requires Valid() && replaying && plots != []
      modifies this`plots, this`active, plots[active]
      ensures Valid() && replaying && plots == old(plots) && active == old(active)
      ensures plots[active].pendingRender == (old(plots[active].pendingRender) || ModeCall in calls)
      ensures plots[active].renders == old(plots[active].renders)
    {
      var i := 0;
      while i < |calls|
        invariant 0 <= i <= |calls|
        invariant Valid() && replaying && plots == old(plots) && active == old(active)
        invariant plots[active].pendingRender == (old(plots[active].pendingRender) || ModeCall in calls[..i])
        invariant plots[active].renders == old(plots[active].renders)
        decreases |calls| - i
      {
        match calls[i] {
          case PageCall => NewPage();
          case ModeCall => SetActivePending();
        }
        assert calls[..i + 1] == calls[..i] + [calls[i]];
        i := i + 1;
      }
      assert calls[..i] == calls;
    }

    /**
      `render_from_snapshot`, whose stored snapshot redraws as `calls`:
      nothing is appended, the active plot stays, and afterwards nothing is
      replaying. The active plot has changed afterwards exactly when it had
      before or the redraw changed the mode. The source reads the active plot
      without checking that there is one, so a non-empty history is
      required. The empty-plot fallback and the image files are left out.
     */
    method RenderFromSnapshot(calls: seq<DeviceCall>)
      requires Valid() && plots != []
      modifies this, plots[active]
      ensures Valid() && !replaying
      ensures plots == old(plots) && active == old(active)
      ensures plots[active].pendingRender == (old(plots[active].pendingRender) || ModeCall in calls)
      ensures plots[active].renders == old(plots[active].renders)
    {
      BeginReplay();
      Redraw(calls);
      EndReplay();
    }

    /**
      `resize`: a changed active plot is redrawn from its display list while
      replaying, the redraw reaching the device as `calls`, and then rendered,
      which leaves nothing pending; an unchanged one is redrawn from its
      snapshot. Nothing happens without an active plot.
     */
    method Resize(calls: seq<DeviceCall>)
      requires Valid()
      modifies this, if active < |plots| then {plots[active]} else {}
      ensures Valid() && plots == old(plots) && active == old(active)
      ensures active < |plots| ==> !replaying
      ensures active < |plots| && old(plots[active].pendingRender) ==>
        !plots[active].pendingRender && plots[active].renders == old(plots[active].renders) + 1
      ensures active < |plots| && !old(plots[active].pendingRender) ==>
        plots[active].pendingRender == (ModeCall in calls) && plots[active].renders == old(plots[active].renders)
      ensures active == |plots| ==> replaying == old(replaying)
    {
      if active < |plots| {
        var p := plots[active];
        if p.pendingRender {
          BeginReplay();
          Redraw(calls);
          p.Render();
          EndReplay();
        } else {
          RenderFromSnapshot(calls);
        }
      }
    }

    /**
      `ide_device::history_next`: one step on, and the plot now active is
      redrawn from its snapshot; only that plot can change. The redraw reads
      the active plot, so the history must not be empty.
     */
    method HistoryNext(calls: seq<DeviceCall>)
      requires Valid() && plots != []
      modifies this, plots[if active + 1 < |plots| then active + 1 else active]
      ensures Valid() && !replaying && plots == old(plots)
      ensures active == if old(active) + 1 < |plots| then old(active) + 1 else old(active)
      ensures var p := plots[active];
        p.pendingRender == (old(p.pendingRender) || ModeCall in calls) && p.renders == old(p.renders)
    {
      MoveNext();
      RenderFromSnapshot(calls);
    }

    /**
      `ide_device::history_previous`: one step back, and the plot now active
      is redrawn from its snapshot; only that plot can change. The redraw
      reads the active plot, so the history must not be empty.
     */
    method HistoryPrevious(calls: seq<DeviceCall>)
      requires Valid() && plots != []
      modifies this, plots[if active > 0 then active - 1 else active]
      ensures Valid() && !replaying && plots == old(plots)
      ensures active == if old(active) > 0 then old(active) - 1 else old(active)
      ensures var p := plots[active];
        p.pendingRender == (old(p.pendingRender) || ModeCall in calls) && p.renders == old(p.renders)
    {
      MovePrevious();
      RenderFromSnapshot(calls);
    }

    /**
      `ide_device::history_remove_active`: the active plot leaves the
      history as `remove_active` has it, and the plot that becomes active,
      if any, is redrawn from its snapshot; no other plot changes. An empty
      history stays as it is.
     */
    method HistoryRemoveActive(calls: seq<DeviceCall>)
      requires Valid()
      modifies this, plots
      ensures Valid()
      ensures old(plots) == [] ==> plots == [] && active == old(active) && replaying == old(replaying)
      ensures old(plots) != [] ==> plots == old(plots)[..old(active)] + old(plots)[old(active) + 1..]
      ensures plots != [] ==> active == (if old(active) < |plots| then old(active) else |plots| - 1) && !replaying
      ensures plots != [] ==> var p := plots[active];
        p.pendingRender == (old(p.pendingRender) || ModeCall in calls) && p.renders == old(p.renders)
      ensures forall q | q in old(plots) && (plots == [] || q != plots[active]) ::
        q.pendingRender == old(q.pendingRender) && q.renders == old(q.renders)
    {
      RemoveActive();
      if PlotCount() > 0 {
        RenderFromSnapshot(calls);
      }
    }

    /**
      `ide_device::render_request`: the active plot is rendered when it has
      changed and either `immediately` is set or its render timeout has
      passed. The clock is the parameter `timeoutElapsed`.
     */
    method RenderRequest(immediately: bool, timeoutElapsed: bool)
      requires Valid()
      modifies if active < |plots| then {plots[active]} else {}
      ensures active < |plots| ==>
        var p := plots[active];
        var renders := old(p.pendingRender) && (immediately || timeoutElapsed);
        p.renders == old(p.renders) + (if renders then 1 else 0) &&
        p.pendingRender == (old(p.pendingRender) && !renders)
    {
      if active < |plots| {
        var p := plots[active];
        if p.pendingRender {
          if immediately || timeoutElapsed {
            p.Render();
          }
        }
      }
    }

    /** `ide_device::set_pending_render`: the active plot, if any, has changed; nothing was rendered. */
    method SetActivePending()
      requires Valid()
      modifies if active < |plots| then {plots[active]} else {}
      ensures active < |plots| ==> plots[active].pendingRender && plots[active].renders == old(plots[active].renders)
    {
      if active < |plots| {
        plots[active].SetPendingRender();
      }
    }
  }
}
