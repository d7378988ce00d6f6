/**
 * The page state the script changes: the email input's value, the style
 * elements appended to `document.head` (guarded by their ids
 * `notificationStyles` and `particleStyles`), the toast notifications
 * appended to the body, and the particle spawns the celebration schedules.
 * Timers are not run: each delay is kept as data.
 */
module Page {
  import opened Form
  import opened Konami

  const NotificationStylesId: string := "notificationStyles"
  const ParticleStylesId: string := "particleStyles"

  /** A toast starts its exit animation 4000 ms after creation and is removed
      300 ms later. */
  const NotificationExitDelay: nat := 4000
  const NotificationExitDuration: nat := 300
  /** A particle is removed 5000 ms after it is created. */
  const ParticleLifetime: nat := 5000

  /** The celebration spawns 50 particles, one every 100 ms. */
  const ParticleCount: nat := 50
  const SpawnInterval: nat := 100

  const CelebrationMessage: string := "\U{1F389} You found the secret! Enjoy your chai! \U{2615}"

  /** A toast as shown: its text, its style, and when it leaves the page. */
  datatype Notification = Notification(message: string, kind: Kind, removedAfter: nat)

  function NotificationOf(message: string, kind: Kind): (n: Notification)
    ensures n.removedAfter == 4300
  {
    Notification(message, kind, NotificationExitDelay + NotificationExitDuration)
  }

  /** The guard `if (!document.querySelector('#id')) { ... appendChild(style) }`
      over the ids of the head's children, in order. */
  function WithStyle(head: seq<string>, id: string): (r: seq<string>)
    ensures id in r
    ensures |head| <= |r| <= |head| + 1
    ensures r[..|head|] == head
  {
    if id in head then head else head + [id]
  }

  /** The guard adds at most the one style it is about: the count of `id`
      becomes 1 unless `id` was already there, and no other id is added or
      removed. */
  lemma WithStyleCounts(head: seq<string>, id: string)
    ensures multiset(WithStyle(head, id))[id] == if id in head then multiset(head)[id] else 1
    ensures forall x | x != id :: multiset(WithStyle(head, id))[x] == multiset(head)[x]
  {
  }

  /** A second application of the guard adds nothing. */
  lemma WithStyleIdempotent(head: seq<string>, id: string)
    ensures WithStyle(WithStyle(head, id), id) == WithStyle(head, id)
  {
  }

  /** The guard applied `n` times in a row. */
  function WithStyleTimes(head: seq<string>, id: string, n: nat): seq<string>
  {
    if n == 0 then head else WithStyle(WithStyleTimes(head, id, n - 1), id)
  }

  /** However many times the guard runs, a style the head did not hold
      before is there exactly once afterwards. */
  lemma {:induction false} StyleInsertedOnce(head: seq<string>, id: string, n: nat)
    requires n >= 1 && id !in head
    ensures WithStyleTimes(head, id, n) == head + [id]
  {
    if n > 1 {
      StyleInsertedOnce(head, id, n - 1);
    }
  }

  /** The delays at which `activateEasterEgg` schedules particle spawns:
      `i * 100` for `i` from 0 to 49. */
  method CelebrationSchedule() returns (delays: seq<nat>)
    ensures |delays| == ParticleCount
    ensures forall i | 0 <= i < |delays| :: delays[i] == i * SpawnInterval
  {
    delays := [];
    for i := 0 to ParticleCount
      invariant |delays| == i
      invariant forall k | 0 <= k < i :: delays[k] == k * SpawnInterval
    {
      delays := delays + [i * SpawnInterval];
    }
  }

  /** The schedule as a value, for reasoning about it. */
  function SpawnDelays(): (d: seq<nat>)
    ensures |d| == ParticleCount
  {
    seq(ParticleCount, i => i * SpawnInterval)
  }

  /** Spawns are strictly increasing, 100 ms apart, and the last one is at
      4900 ms, so the whole burst spans 4.9 s. */
  lemma SpawnDelaysShape()
    ensures SpawnDelays()[0] == 0
    ensures forall i | 0 < i < ParticleCount :: SpawnDelays()[i] == SpawnDelays()[i - 1] + SpawnInterval
    ensures SpawnDelays()[ParticleCount - 1] == 4900
  {
  }

  class LandingPage {
    /** `emailInput.value`. */
    var emailValue: string
    /** Ids of the style elements in `document.head`, in insertion order. */
    var head: seq<string>
    /** Toasts appended to the body, oldest first. */
    var notifications: seq<Notification>
    /** Particle spawns scheduled by celebrations, each as a delay from the
        celebration that scheduled it; bursts are kept, never merged. */
    var scheduledSpawns: seq<nat>
    /** Particles appended to the body, each with the delay after which it
        removes itself. */
    var particles: seq<nat>

    constructor (initialValue: string)
      ensures emailValue == initialValue && head == [] && notifications == []
      ensures scheduledSpawns == [] && particles == []
    {
      emailValue := initialValue;
      head := [];
      notifications := [];
      scheduledSpawns := [];
      particles := [];
    }

    /** The style-injection guard. */
    method EnsureStyle(id: string)
      modifies this`head
      ensures head == WithStyle(old(head), id)
    {
      if id !in head {
        head := head + [id];
      }
    }

    /** `showNotification`: injects the animation styles once and appends one
        toast; overlapping toasts are not merged. */
    method ShowNotification(message: string, kind: Kind)
      modifies this`head, this`notifications
      ensures head == WithStyle(old(head), NotificationStylesId)
      ensures notifications == old(notifications) + [NotificationOf(message, kind)]
    {
      EnsureStyle(NotificationStylesId);
      notifications := notifications + [NotificationOf(message, kind)];
    }

    /** `handleFormSubmit`: one toast per submission; the input is cleared
        exactly when the trimmed value is a valid address. */
    method HandleFormSubmit()
      modifies this`emailValue, this`head, this`notifications
      ensures emailValue == SubmitOutcome(old(emailValue)).inputValue
      ensures notifications == old(notifications)
                + [NotificationOf(SubmitOutcome(old(emailValue)).message, SubmitOutcome(old(emailValue)).kind)]
      ensures head == WithStyle(old(head), NotificationStylesId)
    {
      var o := SubmitOutcome(emailValue);
      ghost var shown := NotificationOf(o.message, o.kind);
      ShowNotification(o.message, o.kind);
      assert notifications == old(notifications) + [shown];
      emailValue := o.inputValue;
    }

    /** `activateEasterEgg`: schedules a burst of 50 spawns and shows the
        celebratory toast. */
    method ActivateEasterEgg()
      modifies this`scheduledSpawns, this`head, this`notifications
      ensures scheduledSpawns == old(scheduledSpawns) + SpawnDelays()
      ensures notifications == old(notifications) + [NotificationOf(CelebrationMessage, Success)]
      ensures head == WithStyle(old(head), NotificationStylesId)
    {
      var delays := CelebrationSchedule();
      assert delays == SpawnDelays();
      scheduledSpawns := scheduledSpawns + delays;
      ShowNotification(CelebrationMessage, Success);
    }

    /** `createGoldenParticle`, the callback each scheduled spawn runs. */
    method CreateGoldenParticle()
      modifies this`head, this`particles
      ensures head == WithStyle(old(head), ParticleStylesId)
      ensures particles == old(particles) + [ParticleLifetime]
    {
      EnsureStyle(ParticleStylesId);
      particles := particles + [ParticleLifetime];
    }

    /** The document's `keydown` listener: feeds the detector and runs the
        celebration when it fires. */
    method OnKeyDown(detector: KonamiDetector, key: string) returns (fired: bool)
      requires detector.Valid()
      modifies detector, this`scheduledSpawns, this`head, this`notifications
      ensures detector.Valid()
      ensures Step(detector.konamiIndex, fired) == Next(old(detector.konamiIndex), key)
      ensures scheduledSpawns == old(scheduledSpawns) + (if fired then SpawnDelays() else [])
      ensures notifications == old(notifications)
                + (if fired then [NotificationOf(CelebrationMessage, Success)] else [])
      ensures head == if fired then WithStyle(old(head), NotificationStylesId) else old(head)
    {
      fired := detector.KeyDown(key);
      if fired {
        ActivateEasterEgg();
      }
    }
  }
}
