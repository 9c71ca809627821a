/** The rotating hero banner of app/components/RotatingHero.tsx: three
    images shown in turn. Every eight seconds the banner fades out, moves
    to the next image (after the last, back to the first) and fades in.
    The timers are not modelled; a rotation is the sequence of states it
    passes through. */
module Hero {

  datatype HeroImage = HeroImage(src: string, alt: string, position: string)

  const HeroImages: seq<HeroImage> := [
    HeroImage("/DayzHero1.png", "DayZ Apocalyptic Scene", "center 15%"),
    HeroImage("/DayzHero2.png", "DayZ Night Zombies", "center 35%"),
    HeroImage("/DayzHero3.png", "DayZ Night Sky", "center 40%")
  ]

  /** `currentImageIndex` and `isTransitioning`. */
  datatype State = State(index: int, transitioning: bool)

  /** The state the component mounts with. */
  const Initial: State := State(0, false)

  /** The index update `prevIndex === length - 1 ? 0 : prevIndex + 1`. */
  function Step(i: int, n: int): (j: int)
    ensures 0 <= i < n ==> 0 <= j < n && j == (i + 1) % n
  {
    if i == n - 1 then 0 else i + 1
  }

  /** `Step` applied `k` times. */
  function StepN(i: int, n: int, k: nat): int
  {
    if k == 0 then i else Step(StepN(i, n, k - 1), n)
  }

  /** One rotation: the states after each of its three updates, in order
      (fade out, change the image, fade in). */
  function Rotate(s: State): (trace: seq<State>)
    ensures |trace| == 3
    ensures trace[0] == s.(transitioning := true)
    ensures trace[1].transitioning && trace[2] == trace[1].(transitioning := false)
    ensures trace[1].index == Step(s.index, |HeroImages|)
  {
    var fading := s.(transitioning := true);
    var changed := fading.(index := Step(s.index, |HeroImages|));
    [fading, changed, changed.(transitioning := false)]
  }

  /** The state after `k` complete rotations from `s`. */
  function After(s: State, k: nat): State
  {
    if k == 0 then s else Rotate(After(s, k - 1))[2]
  }

  /** The image the banner shows in a state. */
  function Shown(s: State): HeroImage
    requires 0 <= s.index < |HeroImages|
  {
    HeroImages[s.index]
  }

  // ---------------------------------------------------------------------
  // Properties

  /** `k` steps from `i` land on `(i + k) mod 3`. */
  lemma {:induction false} StepNIsModular(i: int, k: nat)
    requires 0 <= i < |HeroImages|
    ensures StepN(i, |HeroImages|, k) == (i + k) % |HeroImages|
  {
    if k > 0 {
      StepNIsModular(i, k - 1);
      ModSucc(i + k - 1);
    }
  }

  lemma ModSucc(a: int)
    requires 0 <= a
    ensures ((a % 3) + 1) % 3 == (a + 1) % 3
  {
  }

  /** After as many steps as there are images, the index is back where it
      started. */
  lemma FullCycle(i: int)
    requires 0 <= i < |HeroImages|
    ensures StepN(i, |HeroImages|, |HeroImages|) == i
  {
    StepNIsModular(i, |HeroImages|);
  }

  /** Every state the banner reaches from mounting, including the states
      inside a rotation, indexes an existing image and shows it without a
      transition between rotations. */
  lemma {:induction false} AlwaysInBounds(k: nat)
    ensures 0 <= After(Initial, k).index < |HeroImages|
    ensures After(Initial, k).index == StepN(0, |HeroImages|, k)
    ensures !After(Initial, k).transitioning
    ensures forall t :: 0 <= t < 3 ==> 0 <= Rotate(After(Initial, k))[t].index < |HeroImages|
  {
    if k > 0 {
      AlwaysInBounds(k - 1);
    }
  }

  /** From mounting, the `k`-th rotation shows image `k mod 3`; after
      three rotations the first image is back. */
  lemma ShownAfter(k: nat)
    ensures 0 <= After(Initial, k).index < |HeroImages|
    ensures Shown(After(Initial, k)) == HeroImages[k % |HeroImages|]
    ensures After(Initial, |HeroImages|) == Initial
  {
    AlwaysInBounds(k);
    StepNIsModular(0, k);
    AlwaysInBounds(|HeroImages|);
    FullCycle(0);
  }
}
