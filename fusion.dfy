/**
 * The CashFusion plugin's Qt layer, at the boundary with the fusion engine:
 * the de-duplicated server-status signal, the cached-password decision and
 * the password check, the autofuse toggle and password rotation, the
 * settings edits that ask fusions to stop, shutting a wallet down, and the
 * fusions window's ordering and context menu.
 *
 * The engine itself (`FusionPlugin`, the fusion objects, wallet storage and
 * `check_password`) is represented as abstract state: a wallet has a
 * password or none, a password cache, an autofuse flag, a list of fusions,
 * and a log of the `stop` and `join` calls made on them.
 */
module FusionQt {
  import opened Wrappers
  import Sorting

  // ---------------------------------------------------------------------
  // Server status
  // ---------------------------------------------------------------------

  /** `(b, (summary, extra))` as passed to `notify_server_status`. */
  datatype ServerStatus = ServerStatus(ok: bool, summary: string, extra: string)

  /** The class attribute `last_server_status` starts as "Ok". */
  const InitialStatus := ServerStatus(true, "Ok", "")

  /** `get_server_error`: the detail pair when the status is an error, None otherwise. */
  function ServerError(s: ServerStatus): (r: Option<(string, string)>)
    ensures r.None? <==> s.ok
    ensures r.Some? ==> r.value == (s.summary, s.extra)
  {
    if !s.ok then Some((s.summary, s.extra)) else None
  }

  /** Before any notification, no server error is reported. */
  lemma InitiallyNoError()
    ensures ServerError(InitialStatus) == None
  {
  }

  /** The status in force after the notifications `xs`. */
  function LastOf(start: ServerStatus, xs: seq<ServerStatus>): ServerStatus
  {
    if xs == [] then start else xs[|xs| - 1]
  }

  /** The notifications in `xs` that differ from the status in force before each. */
  function Changes(start: ServerStatus, xs: seq<ServerStatus>): (r: seq<ServerStatus>)
    ensures |r| <= |xs|
    decreases |xs|
  {
    if xs == [] then []
    else
      var init := xs[..|xs| - 1];
      Changes(start, init) + (if xs[|xs| - 1] != LastOf(start, init) then [xs[|xs| - 1]] else [])
  }

  /**
   * The signal log never repeats a status: consecutive signals differ, the
   * first differs from the initial status, the last is the status in force,
   * and every signalled status was notified.
   */
  lemma {:induction false} ChangesNeverRepeat(start: ServerStatus, xs: seq<ServerStatus>)
    ensures var c := Changes(start, xs);
      && LastOf(start, xs) == (if c == [] then start else c[|c| - 1])
      && (forall i :: 0 < i < |c| ==> c[i - 1] != c[i])
      && (c != [] ==> c[0] != start)
      && (forall s :: s in c ==> s in xs)
    decreases |xs|
  {
    if xs != [] {
      var init := xs[..|xs| - 1];
      ChangesNeverRepeat(start, init);
      assert forall s :: s in init ==> s in xs;
    }
  }

  /** Notifying the same status twice in a row signals it at most once. */
  lemma RepeatIsSilent(start: ServerStatus, xs: seq<ServerStatus>, s: ServerStatus)
    ensures Changes(start, xs + [s, s]) == Changes(start, xs + [s])
  {
    assert (xs + [s, s])[..|xs| + 1] == xs + [s];
  }

  class Plugin {
    var lastServerStatus: ServerStatus
    /** Every status passed on to the base class. */
    var forwarded: seq<ServerStatus>
    /** Every `server_status_changed_signal` emitted. */
    var emitted: seq<ServerStatus>
    /** `plugin.active`: false once the user disables the plugin. */
    var active: bool

    ghost predicate Valid()
      reads this
    {
      && lastServerStatus == LastOf(InitialStatus, forwarded)
      && emitted == Changes(InitialStatus, forwarded)
    }

    constructor ()
      ensures Valid() && active
      ensures lastServerStatus == InitialStatus && forwarded == [] && emitted == []
    {
      lastServerStatus := InitialStatus;
      forwarded, emitted := [], [];
      active := true;
    }

    /** `get_server_error` on the stored status. */
    function GetServerError(): (r: Option<(string, string)>)
      reads this
      ensures r.None? <==> lastServerStatus.ok
    {
      ServerError(lastServerStatus)
    }

    /**
     * `notify_server_status`: always forwards; stores and signals the status
     * only when it differs from the stored one.
     */
    method NotifyServerStatus(b: bool, summary: string, extra: string)
      requires Valid()
      modifies this
      ensures Valid()
      ensures forwarded == old(forwarded) + [ServerStatus(b, summary, extra)]
      ensures lastServerStatus == ServerStatus(b, summary, extra)
      ensures emitted == old(emitted) + (if old(lastServerStatus) != ServerStatus(b, summary, extra)
                                         then [ServerStatus(b, summary, extra)] else [])
      ensures GetServerError() == (if b then None else Some((summary, extra)))
      ensures active == old(active)
    {
      var status := ServerStatus(b, summary, extra);
      forwarded := forwarded + [status];
      if lastServerStatus != status {
        lastServerStatus := status;
        emitted := emitted + [status];
      }
      assert forwarded[..|forwarded| - 1] == old(forwarded);
    }

    /**
     * `on_close_window`: takes the wallet's fusions away from the plugin,
     * asks each to stop, and only then waits for each to finish.
     */
    method OnCloseWindow(w: Wallet)
      modifies w`autofusing, w`log
      ensures w.log == old(w.log) + CloseEvents(old(w.fusions))
      ensures !w.autofusing
    {
      var fs := w.RemoveWallet();
      if fs == [] {
        return;
      }
      w.StopEach(fs, ClosingWallet, false);
      w.JoinEach(fs);
    }

    /**
     * `on_new_password`: an autofusing wallet is re-enabled with the new
     * password, and autofuse is switched off if that password is refused.
     */
    method OnNewPassword(w: Wallet, newPassword: Option<string>)
      requires w.Valid()
      modifies w`autofusing, w`autofusePassword
      ensures !old(w.autofusing) ==> unchanged(w)
      ensures old(w.autofusing) ==>
        && (w.autofusing <==> PasswordAccepted(w.password, newPassword))
        && (w.autofusing ==> w.autofusePassword == newPassword)
      ensures w.Valid()
    {
      if w.autofusing {
        var r := w.EnableAutofusing(newPassword);
        if r.Err? {
          var _ := w.DisableAutofusing();
        }
      }
    }

    /**
     * `FusionButton.toggle_autofuse`. Switching off asks the running
     * auto-fusions to stop only if there are some and the user agrees.
     * Switching on uses the cached password or, when none is known, the one
     * typed into the dialog; a cancelled dialog or a plugin disabled in the
     * meantime leaves everything as it was, and a refused password is
     * silently ignored. A wallet with a password but no window raises.
     */
    method ToggleAutofuse(w: Wallet, dialogPassword: Option<string>, confirmStop: bool)
      returns (r: Result<(), WindowError>)
      requires w.Valid()
      modifies w`autofusing, w`autofusePassword, w`cachedPassword, w`log
      ensures w.Valid()
      ensures old(w.autofusing) ==>
        && r.Ok? && !w.autofusing && w.cachedPassword == old(w.cachedPassword)
        && w.log == old(w.log) + StopsOnToggleOff(RunningAuto(w.fusions), confirmStop)
      ensures !old(w.autofusing) ==> w.log == old(w.log)
      ensures !old(w.autofusing) ==>
        var cached := CachedPw(w.password, w.hasWindow, old(w.cachedPassword));
        && (cached.Err? ==> r.Err? && unchanged(w))
        && (cached.Ok? ==>
              && r.Ok?
              && w.cachedPassword == CacheAfterDialog(cached.value, dialogPassword, old(w.cachedPassword))
              && var attempt := PasswordToTry(cached.value, dialogPassword, active);
              && (attempt.None? ==> w.autofusing == old(w.autofusing) && w.autofusePassword == old(w.autofusePassword))
              && (attempt.Some? ==>
                    && (w.autofusing <==> PasswordAccepted(w.password, attempt.value))
                    && (w.autofusing ==> w.autofusePassword == attempt.value)))
    {
      if !w.autofusing {
        r := ToggleOn(w, dialogPassword);
      } else {
        ToggleOff(w, confirmStop);
        r := Ok(());
      }
    }

    /** The branch of `toggle_autofuse` taken when autofuse is on. */
    method ToggleOff(w: Wallet, confirmStop: bool)
      modifies w`autofusing, w`log
      ensures !w.autofusing
      ensures w.log == old(w.log) + StopsOnToggleOff(RunningAuto(w.fusions), confirmStop)
    {
      var running := w.DisableAutofusing();
      if running != [] && confirmStop {
        w.StopEach(running, UserRequest, false);
      }
    }

    /**
     * The branch of `toggle_autofuse` taken when autofuse is off. A password
     * accepted in the dialog is cached before the plugin is checked again.
     */
    method ToggleOn(w: Wallet, dialogPassword: Option<string>) returns (r: Result<(), WindowError>)
      requires w.Valid()
      modifies w`autofusing, w`autofusePassword, w`cachedPassword
      ensures w.Valid()
      ensures var cached := CachedPw(w.password, w.hasWindow, old(w.cachedPassword));
        && (cached.Err? ==> r.Err? && unchanged(w))
        && (cached.Ok? ==>
              && r.Ok?
              && w.cachedPassword == CacheAfterDialog(cached.value, dialogPassword, old(w.cachedPassword))
              && var attempt := PasswordToTry(cached.value, dialogPassword, active);
              && (attempt.None? ==> w.autofusing == old(w.autofusing) && w.autofusePassword == old(w.autofusePassword))
              && (attempt.Some? ==>
                    && (w.autofusing <==> PasswordAccepted(w.password, attempt.value) || old(w.autofusing))
                    && (PasswordAccepted(w.password, attempt.value) ==> w.autofusePassword == attempt.value)))
    {
      var cached := w.GetCachedPw();
      if cached.Err? {
        return Err(cached.error);
      }
      r := Ok(());
      if DialogShown(cached.value) && dialogPassword.Some? {
        w.CachePw(dialogPassword.value);
      }
      var attempt := PasswordToTry(cached.value, dialogPassword, active);
      if attempt.None? {
        return;
      }
      var _ := w.EnableAutofusing(attempt.value);
    }
  }

  // ---------------------------------------------------------------------
  // Passwords
  // ---------------------------------------------------------------------

  /**
   * Whether the engine accepts `pw` for a wallet whose password is
   * `walletPassword` (None: the wallet has none). `check_password` is
   * modelled as comparison with the wallet's current password.
   */
  predicate PasswordAccepted(walletPassword: Option<string>, pw: Option<string>)
  {
    walletPassword.None? || pw == walletPassword
  }

  datatype WindowError = MissingWindow
  datatype PasswordError = InvalidPassword

  /**
   * `get_cached_pw`: `(False, None)` for a wallet without a password;
   * otherwise `(True, pw)` with the cached password if it still passes the
   * check, else None; an error when the wallet has no window.
   */
  function CachedPw(walletPassword: Option<string>, hasWindow: bool, cached: Option<string>)
    : (r: Result<(bool, Option<string>), WindowError>)
    ensures walletPassword.None? ==> r == Ok((false, None))
    ensures walletPassword.Some? && !hasWindow ==> r == Err(MissingWindow)
    ensures walletPassword.Some? && hasWindow ==>
      && r.Ok? && r.value.0
      && (r.value.1.Some? <==> cached.Some? && PasswordAccepted(walletPassword, cached))
      && (r.value.1.Some? ==> r.value.1 == cached)
  {
    if walletPassword.None? then Ok((false, None))
    else if !hasWindow then Err(MissingWindow)
    else if cached.Some? && PasswordAccepted(walletPassword, cached) then Ok((true, cached))
    else Ok((true, None))
  }

  /** `PasswordDialog._chk_pass`: true iff the wallet has no password or the typed one passes. */
  function ChkPass(walletPassword: Option<string>, typed: string): (ok: bool)
    ensures ok <==> PasswordAccepted(walletPassword, Some(typed))
  {
    var pwOk := walletPassword.None?;
    if !pwOk then walletPassword == Some(typed) else pwOk
  }

  /** `toggle_autofuse` opens the password dialog iff a password is needed and none is cached. */
  predicate DialogShown(cached: (bool, Option<string>))
  {
    cached.0 && cached.1.None?
  }

  /**
   * The cached password after `toggle_autofuse` switched on: the dialog's
   * `_on_pw_ok` caches the password it accepts, whether or not the plugin
   * is still active; a cancelled or unshown dialog caches nothing.
   */
  function CacheAfterDialog(cached: (bool, Option<string>), dialogPassword: Option<string>, before: Option<string>)
    : (c: Option<string>)
    ensures c != before ==> DialogShown(cached) && dialogPassword.Some? && c == dialogPassword
  {
    if DialogShown(cached) && dialogPassword.Some? then dialogPassword else before
  }

  /**
   * Once the dialog has accepted the password, switching autofuse on again
   * tries that password without asking, whatever the dialog would return and
   * whether or not the plugin is active.
   */
  lemma DialogPasswordReused(walletPassword: Option<string>, typed: string, before: Option<string>,
                             nextDialog: Option<string>, active: bool, nextActive: bool)
    requires walletPassword.Some? && ChkPass(walletPassword, typed)
    ensures var cache := CacheAfterDialog((true, None), Some(typed), before);
      var next := CachedPw(walletPassword, true, cache);
      && next == Ok((true, Some(typed)))
      && PasswordToTry(next.value, nextDialog, nextActive) == Some(Some(typed))
  {
  }

  /** Which password `toggle_autofuse` tries; None when it gives up before trying. */
  function PasswordToTry(cached: (bool, Option<string>), dialogPassword: Option<string>, active: bool)
    : (r: Option<Option<string>>)
    ensures cached.0 && cached.1.None? ==>
      (r.None? <==> dialogPassword.None? || !active) && (r.Some? ==> r.value == dialogPassword)
    ensures !(cached.0 && cached.1.None?) ==> r == Some(cached.1)
  {
    if cached.0 && cached.1.None? then
      if dialogPassword.None? || !active then None else Some(dialogPassword)
    else Some(cached.1)
  }

  /**
   * Switching autofuse on without asking never fails: whatever
   * `get_cached_pw` hands over, and any password the dialog accepted, passes
   * the check.
   */
  lemma ToggleOnPasswordAccepted(walletPassword: Option<string>, hasWindow: bool, cached: Option<string>,
                                 dialogPassword: Option<string>, active: bool)
    requires CachedPw(walletPassword, hasWindow, cached).Ok?
    requires dialogPassword.Some? ==> ChkPass(walletPassword, dialogPassword.value)
    ensures var attempt := PasswordToTry(CachedPw(walletPassword, hasWindow, cached).value, dialogPassword, active);
      attempt.Some? ==> PasswordAccepted(walletPassword, attempt.value)
  {
  }

  // ---------------------------------------------------------------------
  // Fusions and the wallet
  // ---------------------------------------------------------------------

  /** A fusion as the Qt layer sees it; `status` is `fusion.status[0]`, "" stands for no txid. */
  datatype Fusion = Fusion(id: nat, auto: bool, status: string, statusExt: string, startTime: int, txid: string)

  datatype StopReason = ClosingWallet | UserRequest | QueuedLimitDecreased | SelfFuseChanged

  /** A call made on a fusion: `stop(reason, not_if_running)` or `join()`. */
  datatype Event = Stop(fusion: nat, reason: StopReason, notIfRunning: bool) | Join(fusion: nat)

  /** One `stop` per fusion, in order. */
  function StopAll(fs: seq<Fusion>, reason: StopReason, notIfRunning: bool): (es: seq<Event>)
    ensures |es| == |fs|
    ensures forall i :: 0 <= i < |fs| ==> es[i] == Stop(fs[i].id, reason, notIfRunning)
  {
    if fs == [] then []
    else StopAll(fs[..|fs| - 1], reason, notIfRunning) + [Stop(fs[|fs| - 1].id, reason, notIfRunning)]
  }

  /** One `join` per fusion, in order. */
  function JoinAll(fs: seq<Fusion>): (es: seq<Event>)
    ensures |es| == |fs|
    ensures forall i :: 0 <= i < |fs| ==> es[i] == Join(fs[i].id)
  {
    if fs == [] then [] else JoinAll(fs[..|fs| - 1]) + [Join(fs[|fs| - 1].id)]
  }

  /** What `on_close_window` does to the fusions it took over. */
  function CloseEvents(fs: seq<Fusion>): (es: seq<Event>)
    ensures |es| == 2 * |fs|
  {
    if fs == [] then [] else StopAll(fs, ClosingWallet, false) + JoinAll(fs)
  }

  /**
   * Closing a wallet asks every one of its fusions to stop before it waits
   * for any of them, and waits for every one.
   */
  lemma CloseStopsBeforeJoins(fs: seq<Fusion>)
    ensures var es := CloseEvents(fs);
      && (forall i, j :: 0 <= i < j < |es| && es[j].Stop? ==> es[i].Stop?)
      && (forall f :: f in fs ==> Stop(f.id, ClosingWallet, false) in es && Join(f.id) in es)
      && (forall e :: e in es ==> exists f :: f in fs && e.fusion == f.id)
  {
    var es := CloseEvents(fs);
    if fs != [] {
      forall f | f in fs
        ensures Stop(f.id, ClosingWallet, false) in es && Join(f.id) in es
      {
        var k :| 0 <= k < |fs| && fs[k] == f;
        assert es[k] == Stop(f.id, ClosingWallet, false);
        assert es[|fs| + k] == Join(f.id);
      }
      forall e | e in es
        ensures exists f :: f in fs && e.fusion == f.id
      {
        var k :| 0 <= k < |es| && es[k] == e;
        if k < |fs| {
          assert fs[k] in fs;
        } else {
          assert fs[k - |fs|] in fs;
        }
      }
    }
  }

  /** The wallet's `_fusions_auto`: its fusions started by autofuse. */
  function AutoFusions(fs: seq<Fusion>): (r: seq<Fusion>)
    ensures forall f :: f in r <==> f in fs && f.auto
  {
    if fs == [] then []
    else AutoFusions(fs[..|fs| - 1]) + (if fs[|fs| - 1].auto then [fs[|fs| - 1]] else [])
  }

  /** The auto-fusions whose status is "running". */
  function RunningAuto(fs: seq<Fusion>): (r: seq<Fusion>)
    ensures forall f :: f in r <==> f in fs && f.auto && f.status == "running"
  {
    if fs == [] then []
    else
      var f := fs[|fs| - 1];
      RunningAuto(fs[..|fs| - 1]) + (if f.auto && f.status == "running" then [f] else [])
  }

  /** The stops switching autofuse off sends: to the running ones, if any, when the user agrees. */
  function StopsOnToggleOff(running: seq<Fusion>, confirmStop: bool): seq<Event>
  {
    if running != [] && confirmStop then StopAll(running, UserRequest, false) else []
  }

  /**
   * `edited_queued_autofuse`'s stops: lowering the limit asks every
   * auto-fusion to stop unless it is running; keeping or raising it asks none.
   */
  function QueuedLimitStops(previous: int, numFuse: int, fs: seq<Fusion>): seq<Event>
  {
    if previous > numFuse then StopAll(AutoFusions(fs), QueuedLimitDecreased, true) else []
  }

  lemma QueuedLimitStopsSpec(previous: int, numFuse: int, fs: seq<Fusion>)
    ensures var es := QueuedLimitStops(previous, numFuse, fs);
      && (es != [] ==> previous > numFuse)
      && (forall e :: e in es ==> e.Stop? && e.notIfRunning && exists f :: f in fs && f.auto && e.fusion == f.id)
      && (previous > numFuse ==> forall f :: f in fs && f.auto ==> Stop(f.id, QueuedLimitDecreased, true) in es)
  {
    var es := QueuedLimitStops(previous, numFuse, fs);
    var auto := AutoFusions(fs);
    forall e | e in es
      ensures e.Stop? && e.notIfRunning && exists f :: f in fs && f.auto && e.fusion == f.id
    {
      var k :| 0 <= k < |es| && es[k] == e;
      assert auto[k] in auto;
    }
    if previous > numFuse {
      forall f | f in fs && f.auto
        ensures Stop(f.id, QueuedLimitDecreased, true) in es
      {
        var k :| 0 <= k < |auto| && auto[k] == f;
        assert es[k] == Stop(f.id, QueuedLimitDecreased, true);
      }
    }
  }

  /**
   * `chose_self_fuse`'s stops: a changed selection asks every fusion of the
   * wallet to stop unless it is running; an unchanged one asks none.
   */
  function SelfFuseStops(previous: int, selected: int, fs: seq<Fusion>): seq<Event>
  {
    if previous != selected then StopAll(fs, SelfFuseChanged, true) else []
  }

  lemma SelfFuseStopsSpec(previous: int, selected: int, fs: seq<Fusion>)
    ensures var es := SelfFuseStops(previous, selected, fs);
      && (es != [] ==> previous != selected)
      && (forall e :: e in es ==> e.Stop? && e.notIfRunning && exists f :: f in fs && e.fusion == f.id)
      && (previous != selected ==> forall f :: f in fs ==> Stop(f.id, SelfFuseChanged, true) in es)
  {
    var es := SelfFuseStops(previous, selected, fs);
    forall e | e in es
      ensures e.Stop? && e.notIfRunning && exists f :: f in fs && e.fusion == f.id
    {
      var k :| 0 <= k < |es| && es[k] == e;
      assert fs[k] in fs;
    }
    if previous != selected {
      forall f | f in fs
        ensures Stop(f.id, SelfFuseChanged, true) in es
      {
        var k :| 0 <= k < |fs| && fs[k] == f;
        assert es[k] == Stop(f.id, SelfFuseChanged, true);
      }
    }
  }

  /** `storage.get(key, default)`. */
  function StoredOr(v: Option<int>, default: int): int
  {
    if v.Some? then v.value else default
  }

  /** The smallest coin size the size selector stores. */
  const MinSelectorSize := 10000

  /** `edited_size`: an empty or too small amount becomes 10000. */
  function SizeSetting(amount: Option<int>): (size: int)
    ensures size >= MinSelectorSize
    ensures amount.Some? && amount.value >= MinSelectorSize ==> size == amount.value
    ensures (amount.None? || amount.value < MinSelectorSize) ==> size == MinSelectorSize
  {
    if amount.None? || amount.value < MinSelectorSize then MinSelectorSize else amount.value
  }

  /** The stored coin selector; the fraction selector is not modelled. */
  datatype Selector = BySize(size: int) | ByCount(count: int)

  /** A wallet as the plugin's Qt layer sees it. */
  class Wallet {
    /** None: the wallet has no password. */
    var password: Option<string>
    /** Whether the wallet still has an open window. */
    var hasWindow: bool
    /** The GUI's password cache for this wallet. */
    var cachedPassword: Option<string>
    var autofusing: bool
    var autofusePassword: Option<string>
    /** The wallet's `_fusions`. */
    var fusions: seq<Fusion>
    /** The `stop` and `join` calls made on the wallet's fusions. */
    var log: seq<Event>
    // The wallet storage keys the settings dialog writes.
    var selector: Option<Selector>
    var queuedAutofuse: Option<int>
    var confirmedOnly: Option<bool>
    var selfFusePlayers: Option<int>
    /** `DEFAULT_QUEUED_AUTOFUSE` and `DEFAULT_SELF_FUSE`, defined outside this model. */
    const defaultQueuedAutofuse: int
    const defaultSelfFuse: int

    /** Autofuse only ever holds a password the wallet accepts. */
    ghost predicate Valid()
      reads this
    {
      autofusing ==> PasswordAccepted(password, autofusePassword)
    }

    constructor (password: Option<string>, hasWindow: bool, fusions: seq<Fusion>,
                 defaultQueuedAutofuse: int, defaultSelfFuse: int)
      ensures Valid() && !autofusing
      ensures this.password == password && this.hasWindow == hasWindow && this.fusions == fusions
      ensures cachedPassword == None && log == []
      ensures selector == None && queuedAutofuse == None && confirmedOnly == None && selfFusePlayers == None
      ensures this.defaultQueuedAutofuse == defaultQueuedAutofuse && this.defaultSelfFuse == defaultSelfFuse
    {
      this.password := password;
      this.hasWindow := hasWindow;
      cachedPassword := None;
      autofusing, autofusePassword := false, None;
      this.fusions := fusions;
      log := [];
      selector, queuedAutofuse, confirmedOnly, selfFusePlayers := None, None, None, None;
      this.defaultQueuedAutofuse := defaultQueuedAutofuse;
      this.defaultSelfFuse := defaultSelfFuse;
    }

    /** `Plugin.get_cached_pw` for this wallet. */
    method GetCachedPw() returns (r: Result<(bool, Option<string>), WindowError>)
      ensures r == CachedPw(password, hasWindow, cachedPassword)
    {
      if password.None? {
        return Ok((false, None));
      }
      if !hasWindow {
        return Err(MissingWindow);
      }
      var pw := cachedPassword;
      if pw.Some? && !PasswordAccepted(password, pw) {
        pw := None;
      }
      return Ok((true, pw));
    }

    /** `enable_autofusing`: refuses a password the wallet does not accept, else records it. */
    method EnableAutofusing(pw: Option<string>) returns (r: Result<(), PasswordError>)
      modifies this`autofusing, this`autofusePassword
      ensures r.Ok? <==> PasswordAccepted(password, pw)
      ensures r.Ok? ==> autofusing && autofusePassword == pw
      ensures r.Err? ==> autofusing == old(autofusing) && autofusePassword == old(autofusePassword)
    {
      if !PasswordAccepted(password, pw) {
        return Err(InvalidPassword);
      }
      autofusing, autofusePassword := true, pw;
      return Ok(());
    }

    /** `Plugin.cache_pw`: the GUI remembers the password only while the wallet has a window. */
    method CachePw(pw: string)
      modifies this`cachedPassword
      ensures hasWindow ==> cachedPassword == Some(pw)
      ensures !hasWindow ==> cachedPassword == old(cachedPassword)
    {
      if hasWindow {
        cachedPassword := Some(pw);
      }
    }

    /** `disable_autofusing`: switches autofuse off and returns the auto-fusions still running. */
    method DisableAutofusing() returns (running: seq<Fusion>)
      modifies this`autofusing
      ensures !autofusing && running == RunningAuto(fusions)
    {
      autofusing := false;
      running := RunningAuto(fusions);
    }

    /** `remove_wallet`: the plugin lets go of the wallet and hands back its fusions. */
    method RemoveWallet() returns (fs: seq<Fusion>)
      modifies this`autofusing
      ensures fs == fusions && !autofusing
    {
      autofusing := false;
      fs := fusions;
    }

    /** `for f in fs: f.stop(reason, not_if_running)`, each call recorded in order. */
    method StopEach(fs: seq<Fusion>, reason: StopReason, notIfRunning: bool)
      modifies this`log
      ensures log == old(log) + StopAll(fs, reason, notIfRunning)
    {
      for i := 0 to |fs|
        invariant log == old(log) + StopAll(fs[..i], reason, notIfRunning)
      {
        assert fs[..i + 1][..i] == fs[..i];
        log := log + [Stop(fs[i].id, reason, notIfRunning)];
      }
      assert fs[..|fs|] == fs;
    }

    /** `for f in fs: f.join()`, each call recorded in order. */
    method JoinEach(fs: seq<Fusion>)
      modifies this`log
      ensures log == old(log) + JoinAll(fs)
    {
      for i := 0 to |fs|
        invariant log == old(log) + JoinAll(fs[..i])
      {
        assert fs[..i + 1][..i] == fs[..i];
        log := log + [Join(fs[i].id)];
      }
      assert fs[..|fs|] == fs;
    }

    /** `WalletSettingsDialog.edited_size`. */
    method EditedSize(amount: Option<int>)
      modifies this`selector
      ensures selector == Some(BySize(SizeSetting(amount)))
    {
      var size := amount;
      if size.None? || size.value < MinSelectorSize {
        size := Some(MinSelectorSize);
      }
      selector := Some(BySize(size.value));
    }

    /** `WalletSettingsDialog.edited_count`. */
    method EditedCount(count: int)
      modifies this`selector
      ensures selector == Some(ByCount(count))
    {
      selector := Some(ByCount(count));
    }

    /** `WalletSettingsDialog.clicked_confirmed_only`. */
    method ClickedConfirmedOnly(checked: bool)
      modifies this`confirmedOnly
      ensures confirmedOnly == Some(checked)
    {
      confirmedOnly := Some(checked);
    }

    /** `WalletSettingsDialog.edited_queued_autofuse`: stores the limit, then stops as `QueuedLimitStops` says. */
    method EditedQueuedAutofuse(numFuse: int)
      modifies this`queuedAutofuse, this`log
      ensures queuedAutofuse == Some(numFuse)
      ensures log == old(log) + QueuedLimitStops(StoredOr(old(queuedAutofuse), defaultQueuedAutofuse), numFuse, fusions)
    {
      var previous := StoredOr(queuedAutofuse, defaultQueuedAutofuse);
      queuedAutofuse := Some(numFuse);
      if previous > numFuse {
        StopEach(AutoFusions(fusions), QueuedLimitDecreased, true);
      }
    }

    /** `WalletSettingsDialog.chose_self_fuse`: stores the selection, then stops as `SelfFuseStops` says. */
    method ChoseSelfFuse(selected: int)
      modifies this`selfFusePlayers, this`log
      ensures selfFusePlayers == Some(selected)
      ensures log == old(log) + SelfFuseStops(StoredOr(old(selfFusePlayers), defaultSelfFuse), selected, fusions)
    {
      var previous := StoredOr(selfFusePlayers, defaultSelfFuse);
      selfFusePlayers := Some(selected);
      if previous != selected {
        StopEach(fusions, SelfFuseChanged, true);
      }
    }
  }

  // ---------------------------------------------------------------------
  // Fusions window
  // ---------------------------------------------------------------------

  /** `key=lambda x: x[1], reverse=True`: a later start time comes first. */
  function StartedNoEarlier(a: Fusion, b: Fusion): bool
  {
    a.startTime >= b.startTime
  }

  /** The rows of `FusionsWindow.refresh`, from the plugin's fusions in their dictionary order. */
  function FusionsOrder(fs: seq<Fusion>): seq<Fusion>
  {
    Sorting.SortBy(fs, StartedNoEarlier)
  }

  /**
   * The fusions window lists every fusion once, newest first, and fusions
   * started at the same time keep the plugin's order.
   */
  lemma FusionsNewestFirst(fs: seq<Fusion>, f: Fusion)
    ensures multiset(FusionsOrder(fs)) == multiset(fs)
    ensures var r := FusionsOrder(fs);
      forall i, j :: 0 <= i < j < |r| ==> r[i].startTime >= r[j].startTime
    ensures Sorting.Tied(FusionsOrder(fs), StartedNoEarlier, f) == Sorting.Tied(fs, StartedNoEarlier, f)
  {
    assert Sorting.TotalPreorder(StartedNoEarlier);
    Sorting.SortPermutes(fs, StartedNoEarlier);
    Sorting.SortSorted(fs, StartedNoEarlier);
    Sorting.SortStable(fs, StartedNoEarlier, f);
  }

  /**
   * The context menu of `create_menu_active_fusions`: a Cancel entry (with
   * whether it reads "at end of round") and a View tx entry (with its fusion).
   */
  datatype Menu = Menu(cancel: Option<bool>, viewTx: Option<nat>)

  /** The menu is shown only when it has an entry. */
  predicate Shown(m: Menu)
  {
    m.cancel.Some? || m.viewTx.Some?
  }

  /** The live fusions behind the selected rows (rows whose fusion is gone give None). */
  function LiveSelection(selected: seq<Option<Fusion>>): set<Fusion>
  {
    set x | x in selected && x.Some? :: x.value
  }

  function FirstLive(selected: seq<Option<Fusion>>): (r: Option<Fusion>)
    ensures r.Some? ==> r.value in LiveSelection(selected)
    ensures r.None? ==> LiveSelection(selected) == {}
  {
    if selected == [] then None
    else if selected[0].Some? then selected[0]
    else
      assert LiveSelection(selected) == LiveSelection(selected[1..]);
      FirstLive(selected[1..])
  }

  /**
   * The menu for the selected rows: Cancel when some selected fusion is
   * running or waiting, labelled "at end of round" when some is running;
   * View tx when exactly one fusion is selected and it has a txid.
   */
  function MenuFor(selected: seq<Option<Fusion>>): (m: Menu)
    ensures m.cancel.Some? <==>
      exists f :: f in LiveSelection(selected) && (f.status == "running" || f.status == "waiting")
    ensures m.cancel.Some? ==>
      (m.cancel.value <==> exists f :: f in LiveSelection(selected) && f.status == "running")
    ensures m.viewTx.Some? <==> exists f :: LiveSelection(selected) == {f} && f.txid != ""
    ensures m.viewTx.Some? ==> exists f :: LiveSelection(selected) == {f} && m.viewTx.value == f.id
    ensures selected == [] ==> !Shown(m)
  {
    var fusions := LiveSelection(selected);
    var hasLive := exists f :: f in fusions && (f.status == "running" || f.status == "waiting");
    var anyRunning := exists f :: f in fusions && f.status == "running";
    var single := if |fusions| == 1 then FirstLive(selected) else None;
    SingletonOf(fusions, single);
    Menu(if hasLive then Some(anyRunning) else None,
         if single.Some? && single.value.txid != "" then Some(single.value.id) else None)
  }

  /**
   * The menu's Cancel action: a user stop for every selected fusion that
   * still exists, whatever its status (the set gives no order).
   */
  function CancelStops(selected: seq<Option<Fusion>>): (es: set<Event>)
    ensures forall f :: f in LiveSelection(selected) ==> Stop(f.id, UserRequest, false) in es
    ensures forall e :: e in es ==>
      e.Stop? && e.reason == UserRequest && !e.notIfRunning &&
      exists f :: f in LiveSelection(selected) && e.fusion == f.id
  {
    set f | f in LiveSelection(selected) :: Stop(f.id, UserRequest, false)
  }

  lemma SingletonOf(s: set<Fusion>, single: Option<Fusion>)
    requires |s| == 1 ==> single.Some? && single.value in s
    requires |s| != 1 ==> single.None?
    ensures single.Some? ==> s == {single.value}
    ensures single.None? ==> forall f :: s != {f}
  {
    if single.Some? {
      var x := single.value;
      assert |s - {x}| == 0;
      assert s == {x} + (s - {x});
    }
  }
}
