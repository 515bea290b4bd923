/** The viewer's webview calls as they update its globals in place, against the transitions of WebviewModel. */
module WebviewCache {
  import opened Collections
  import opened WebviewModel

  /** The process behind the bus name. */
  class Webview {
    var alive: bool
    var staged: Headers
    var accepted: bool
    var lastLoad: Option<Load>
    var lastHeaders: Headers
    ghost var issued: seq<Issued>

    ghost function View(): Process
      reads this
    {
      Process(alive, staged, accepted, lastLoad, lastHeaders)
    }

    constructor ()
      ensures View() == INITIAL.process && issued == []
    {
      alive, staged, accepted, lastLoad, lastHeaders, issued := false, map[], false, None, map[], [];
    }

    method MayDie(dies: bool)
      modifies this`alive
      ensures View() == Died(old(View()), dies)
    {
      if dies {
        alive := false;
      }
    }

    method Spawn(dies: bool)
      modifies this
      ensures View() == Died(SPAWNED, dies) && issued == old(issued)
    {
      alive, staged, accepted, lastLoad, lastHeaders := true, map[], false, None, map[];
      MayDie(dies);
    }

    method SetRequestHeaders(h: Headers, a: Attempt) returns (r: Reply)
      modifies this
      ensures (View(), r) == Staged(old(View()), h, a) && issued == old(issued)
    {
      if !alive {
        return Failed(if a.answered then Gone else OtherError);
      }
      if a.carried {
        staged, accepted := h, true;
        r := if a.answered then Done else Failed(OtherError);
      } else {
        r := Failed(if !accepted && a.answered then UnknownMethod else OtherError);
      }
      MayDie(a.dies);
    }

    // loadPage and loadImage.
    method Show(load: Load, ghost wanted: Headers, a: Attempt) returns (r: Reply)
      modifies this
      ensures (View(), issued, r) == Received(old(View()), old(issued), load, wanted, a)
    {
      r := Failed(a.failure);
      if alive && a.carried {
        lastLoad, lastHeaders := Some(load), staged;
        if load.Page? {
          issued := issued + [Issued(load.url, wanted, staged)];
        }
        if a.answered {
          r := Done;
        }
      }
      MayDie(a.dies);
    }
  }

  class Viewer {
    const webview: Webview
    var hasBrowser: bool
    var currentUrl: Option<string>
    var currentHeaders: Headers
    var currentSkipSsl: bool
    var supportsHeaders: bool
    var supportsSslArg: bool
    var bouncePending: bool
    ghost var bare: bool

    ghost function Globals(): Cache
      reads this
    {
      Cache(hasBrowser, currentUrl, currentHeaders, currentSkipSsl, supportsHeaders, supportsSslArg, bouncePending)
    }

    ghost function View(): World
      reads this, webview
    {
      World(webview.View(), Globals(), webview.issued, bare)
    }

    constructor ()
      ensures View() == INITIAL && fresh(webview)
    {
      webview := new Webview();
      hasBrowser, currentUrl, currentHeaders, currentSkipSsl := false, None, map[], false;
      supportsHeaders, supportsSslArg, bouncePending, bare := true, true, false, false;
    }

    method LoadBrowser(l: Launch) returns (ok: bool)
      modifies this, webview
      ensures View() == Launched(old(View()), l) && ok == l.ok
    {
      supportsHeaders, supportsSslArg := true, true;
      hasBrowser := false;
      currentUrl, currentHeaders, currentSkipSsl := None, map[], false;
      ok := l.ok;
      if ok {
        webview.Spawn(l.dies);
        hasBrowser := true;
      }
    }

    method EnsureBrowser(l: Launch) returns (ok: bool)
      modifies this, webview
      ensures (View(), ok) == Ensured(old(View()), l)
    {
      ok := true;
      if !hasBrowser || !webview.alive {
        ok := LoadBrowser(l);
      }
    }

    method ApplyRequestHeaders(h: Headers, a: Attempt) returns (applied: bool)
      modifies this, webview
      ensures (View(), applied) == Applied(old(View()), h, a)
    {
      if !supportsHeaders {
        return true;
      }
      var r := webview.SetRequestHeaders(h, a);
      if r == Done {
        return true;
      }
      if r == Failed(UnknownMethod) {
        supportsHeaders := false;
        return true;
      }
      return false;
    }

    method SendToWebview(load: Load, ghost wanted: Headers, s: Sending) returns (r: Reply, ghost respawned: bool)
      modifies this, webview
      ensures (View(), r, respawned) == Sent(old(View()), load, wanted, s)
    {
      hide Received, Died;
      respawned := false;
      r := webview.Show(load, wanted, s.first);
      if r == Failed(Gone) {
        webview.MayDie(s.dies);
        var ok := LoadBrowser(s.launch);
        if !ok {
          return LaunchFailed, false;
        }
        respawned := true;
        r := webview.Show(load, wanted, s.second);
      }
    }

    method LoadViaWebview(load: Load, ghost wanted: Headers, full: Sending, legacy: Sending) returns (ok: bool, ghost respawned: bool)
      modifies this, webview
      ensures (View(), ok, respawned) == LoadedVia(old(View()), load, wanted, full, legacy)
    {
      hide Sent;
      if supportsSslArg {
        var r, first := SendToWebview(load, wanted, full);
        if r == Done || r == Failed(Gone) {
          return r == Done, first;
        }
        var again, second := SendToWebview(load, wanted, legacy);
        if again == Done {
          supportsSslArg := false;
        }
        return again == Done, first || second;
      }
      var r, only := SendToWebview(load, wanted, full);
      return r == Done, only;
    }

    // Time passes; the process may die meanwhile.
    method Wait(dies: bool)
      modifies webview`alive
      ensures View() == old(View()).(process := Died(old(webview.View()), dies))
    {
      webview.MayDie(dies);
    }

    // The load with its headers in place, and what the globals remember of it.
    method Navigate(uri: string, headers: Headers, skipSsl: bool, c: Chance) returns (outcome: Outcome)
      modifies this, webview
      ensures (View(), outcome) == Navigated(old(View()), uri, headers, skipSsl, c)
    {
      hide LoadedVia;
      var ok;
      ghost var respawned;
      ok, respawned := LoadViaWebview(Page(uri), headers, c.full, c.legacy);
      if !ok {
        return Raised;
      }
      currentUrl, currentHeaders, currentSkipSsl := Some(uri), headers, skipSsl;
      bare := respawned || !webview.accepted;
      return Loaded;
    }

    method ViewWebpage(uri: string, headers: Headers, skipSsl: bool, c: Chance) returns (outcome: Outcome)
      modifies this, webview
      ensures (View(), outcome) == PageShown(old(View()), uri, headers, skipSsl, c)
    {
      hide Ensured, Applied, Navigated, Died;
      var up := EnsureBrowser(c.launch);
      if !up {
        return Raised;
      }
      Wait(c.diesBefore);
      var applied := ApplyRequestHeaders(headers, c.staging);
      Wait(c.diesAfter);
      if currentUrl == Some(uri) && currentHeaders == headers && currentSkipSsl == skipSsl {
        return Unchanged;
      }
      if !applied {
        return Deferred;
      }
      outcome := Navigate(uri, headers, skipSsl, c);
    }

    method ViewImage(uri: string, skipSsl: bool, c: Chance) returns (outcome: Outcome)
      modifies this, webview
      ensures (View(), outcome) == ImageShown(old(View()), uri, skipSsl, c)
    {
      hide Ensured, LoadedVia, Died;
      var up := EnsureBrowser(c.launch);
      if !up {
        return Raised;
      }
      Wait(c.diesBefore);
      if currentUrl == Some(uri) && currentSkipSsl == skipSsl {
        return Unchanged;
      }
      ghost var held := webview.staged;
      var ok, _ := LoadViaWebview(Image(uri), held, c.full, c.legacy);
      if !ok {
        return Raised;
      }
      currentUrl, currentSkipSsl := Some(uri), skipSsl;
      return Loaded;
    }

    method ConsumeRotationBounce(dies: bool)
      modifies this, webview
      ensures View() == Bounced(old(View()), dies)
    {
      if bouncePending {
        bouncePending := false;
        if hasBrowser {
          webview.MayDie(dies);
        }
        currentUrl := None;
      }
    }
  }

  /** The viewer, command by command until an error escapes, goes through the run the laws speak of. */
  method Run(commands: seq<Command>) returns (viewer: Viewer, outcome: Outcome)
    ensures (viewer.View(), outcome) == After(commands)
    ensures AllClean(viewer.webview.issued) && (outcome != Raised ==> Valid(viewer.View()))
  {
    hide PageShown, ImageShown, Bounced, Valid;
    viewer := new Viewer();
    outcome := Deferred;
    for k := 0 to |commands|
      invariant fresh(viewer) && fresh(viewer.webview)
      invariant (viewer.View(), outcome) == After(commands[..k])
    {
      assert commands[..k + 1][..k] == commands[..k];
      if outcome != Raised {
        match commands[k] {
          case ShowPage(url, headers, skipSsl, c) =>
            outcome := viewer.ViewWebpage(url, headers, skipSsl, c);
          case ShowImage(url, skipSsl, c) =>
            outcome := viewer.ViewImage(url, skipSsl, c);
          case AskBounce =>
            viewer.bouncePending := true;
            outcome := Deferred;
          case Bounce(dies) =>
            viewer.ConsumeRotationBounce(dies);
            outcome := Deferred;
          case Crash =>
            viewer.webview.MayDie(true);
            outcome := Deferred;
        }
      }
    }
    assert commands[..|commands|] == commands;
    EveryRunTruthful(commands);
  }
}
