/** The app lock (AppLock.swift) and the gate around the app (ContentView.swift),
    together with the list screen's lock button (DocMainView.swift). The device's
    biometric check is an input: whether it can evaluate the policy, and the
    verdict it returns when asked to evaluate. */
module Gate {

  /** `AppLock`'s two observable flags. */
  datatype AppLock = AppLock(isUnlocked: bool, isAvailable: bool)

  /** A freshly created `AppLock`: locked, biometrics assumed available. */
  const InitialLock := AppLock(false, true)

  /** The answers of the device's biometric check for one interaction. */
  datatype Biometrics = Biometrics(canEvaluate: bool, verdict: bool)

  /** `authenticateUser`: with biometrics supported the lock takes the
      evaluation's verdict; otherwise it becomes unavailable and locked. */
  function AuthenticateUser(lock: AppLock, bio: Biometrics): (r: AppLock)
    ensures bio.canEvaluate ==> r.isUnlocked == bio.verdict && r.isAvailable == lock.isAvailable
    ensures !bio.canEvaluate ==> !r.isUnlocked && !r.isAvailable
    ensures r.isAvailable ==> lock.isAvailable
  {
    if bio.canEvaluate then lock.(isUnlocked := bio.verdict)
    else lock.(isAvailable := false, isUnlocked := false)
  }

  /** `checkForPermission`: asks whether the policy can be evaluated; it takes
      no lock, so it cannot change one. */
  function CheckForPermission(bio: Biometrics): bool {
    bio.canEvaluate
  }

  datatype ScenePhase = Active | Inactive | Background

  /** The app-wide state: the lock, the persisted `isLockedEnabled` preference
      and the list screen's alert. */
  datatype AppState = AppState(lock: AppLock, isLockedEnabled: bool, alertMessage: string, showAlert: bool)

  /** The app at launch with the persisted preference. */
  function Launch(isLockedEnabled: bool): (s: AppState)
    ensures !s.lock.isUnlocked && s.lock.isAvailable
    ensures OverlayShown(s) <==> isLockedEnabled
  {
    AppState(InitialLock, isLockedEnabled, "", false)
  }

  /** The blocking overlay covers the app. */
  predicate OverlayShown(s: AppState) {
    s.isLockedEnabled && !s.lock.isUnlocked
  }

  /** The "enable FaceID or TouchID" notice is shown inside the overlay. */
  predicate NoticeShown(s: AppState) {
    OverlayShown(s) && !s.lock.isAvailable
  }

  /** `askPermission`: authenticates only when the lock is enabled and
      biometrics have not been found unavailable. */
  function AskPermission(s: AppState, bio: Biometrics): (r: AppState)
    ensures r.isLockedEnabled == s.isLockedEnabled && r.alertMessage == s.alertMessage && r.showAlert == s.showAlert
    ensures !(s.lock.isAvailable && s.isLockedEnabled) ==> r == s
    ensures s.lock.isAvailable && s.isLockedEnabled ==> r.lock == AuthenticateUser(s.lock, bio)
  {
    if s.lock.isAvailable && s.isLockedEnabled then s.(lock := AuthenticateUser(s.lock, bio)) else s
  }

  /** The scene-phase handler: leaving the active phase locks; entering it
      while locked asks for permission. */
  function OnPhaseChange(s: AppState, phase: ScenePhase, bio: Biometrics): (r: AppState)
    ensures phase != Active ==> r == s.(lock := s.lock.(isUnlocked := false))
    ensures phase == Active && !s.lock.isUnlocked ==> r == AskPermission(s, bio)
    ensures phase == Active && s.lock.isUnlocked ==> r == s
  {
    var s1 := if phase != Active then s.(lock := s.lock.(isUnlocked := false)) else s;
    if phase == Active && !s1.lock.isUnlocked then AskPermission(s1, bio) else s1
  }

  const PermissionAlert := "Please enable FaceID/TouchID Permission"

  /** The lock button: with permission the preference flips and turning it on
      authenticates; without, the preference stays and an alert is raised. */
  function LockButton(s: AppState, bio: Biometrics): (r: AppState)
    ensures CheckForPermission(bio) ==> r.isLockedEnabled == !s.isLockedEnabled
    ensures CheckForPermission(bio) && r.isLockedEnabled ==> r.lock == AuthenticateUser(s.lock, bio)
    ensures CheckForPermission(bio) && !r.isLockedEnabled ==> r.lock == s.lock
    ensures CheckForPermission(bio) ==> r.alertMessage == s.alertMessage && r.showAlert == s.showAlert
    ensures !CheckForPermission(bio) ==>
              r.lock == s.lock && r.isLockedEnabled == s.isLockedEnabled
              && r.alertMessage == PermissionAlert && r.showAlert != s.showAlert
  {
    if CheckForPermission(bio) then
      var enabled := !s.isLockedEnabled;
      s.(isLockedEnabled := enabled, lock := if enabled then AuthenticateUser(s.lock, bio) else s.lock)
    else
      s.(alertMessage := PermissionAlert, showAlert := !s.showAlert)
  }

  /** The interactions that reach the gate. The overlay takes every touch while
      it is shown, so the lock button only acts when it is not. */
  datatype Event = Appear | PhaseChange(phase: ScenePhase) | OverlayTap | LockButtonTap

  function Step(s: AppState, e: Event, bio: Biometrics): AppState {
    match e
    case Appear => AskPermission(s, bio)
    case PhaseChange(phase) => OnPhaseChange(s, phase, bio)
    case OverlayTap => if OverlayShown(s) then AskPermission(s, bio) else s
    case LockButtonTap => if OverlayShown(s) then s else LockButton(s, bio)
  }

  /** Runs a sequence of interactions, each with the biometric answers it met. */
  function Run(s: AppState, events: seq<(Event, Biometrics)>): AppState
    decreases |events|
  {
    if |events| == 0 then s else Run(Step(s, events[0].0, events[0].1), events[1..])
  }

  /** Tapping the overlay, like the screen appearing, re-runs `askPermission`;
      a tap with no overlay up reaches the app beneath instead. */
  lemma OverlayTapAsksPermission(s: AppState, bio: Biometrics)
    ensures OverlayShown(s) ==> Step(s, OverlayTap, bio) == AskPermission(s, bio)
    ensures !OverlayShown(s) ==> Step(s, OverlayTap, bio) == s
    ensures Step(s, Appear, bio) == AskPermission(s, bio)
  {
  }

  /** Nothing sets `isAvailable` back to true. */
  lemma {:induction false} AvailabilityNeverRestored(s: AppState, events: seq<(Event, Biometrics)>)
    ensures Run(s, events).lock.isAvailable ==> s.lock.isAvailable
    decreases |events|
  {
    if |events| > 0 {
      var s1 := Step(s, events[0].0, events[0].1);
      AvailabilityNeverRestored(s1, events[1..]);
    }
  }

  /** Once the notice is up, no interaction removes it: asking for permission
      requires availability, which never returns, and the overlay keeps the
      lock button out of reach. */
  lemma {:induction false} NoticePersists(s: AppState, events: seq<(Event, Biometrics)>)
    requires NoticeShown(s)
    ensures NoticeShown(Run(s, events))
    decreases |events|
  {
    if |events| > 0 {
      var s1 := Step(s, events[0].0, events[0].1);
      assert s1.lock == s.lock || s1.lock == s.lock.(isUnlocked := false);
      NoticePersists(s1, events[1..]);
    }
  }

  /** Starting unlocked, leaving the foreground locks; coming back with a
      successful biometric check unlocks again. */
  lemma RelockThenUnlock(s: AppState, away: ScenePhase, bio: Biometrics)
    requires s.lock.isUnlocked && s.lock.isAvailable && s.isLockedEnabled
    requires away != Active
    requires bio.canEvaluate && bio.verdict
    ensures OverlayShown(OnPhaseChange(s, away, bio))
    ensures !OverlayShown(OnPhaseChange(OnPhaseChange(s, away, bio), Active, bio))
  {
  }

  /** Turning the lock off never authenticates and lifts the overlay;
      turning it on authenticates. */
  lemma LockButtonAuthenticatesOnlyWhenEnabling(s: AppState, bio: Biometrics)
    requires CheckForPermission(bio)
    ensures s.isLockedEnabled ==> LockButton(s, bio).lock == s.lock && !OverlayShown(LockButton(s, bio))
    ensures !s.isLockedEnabled ==> LockButton(s, bio).lock.isUnlocked == bio.verdict
  {
  }
}
