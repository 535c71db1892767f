/**
 The keyboard callback of main.cpp: only key presses act; Q quits, the space
 bar moves to the next of the N_CAMERA_CONFIGS camera configurations, wrapping
 around to the first.
 */
module Keyboard {

  const N_CAMERA_CONFIGS: nat := 3

  /** The keys the callback distinguishes. */
  datatype Key = KeyQ | KeySpace | OtherKey

  /** GLFW's key actions. */
  datatype Action = Press | Release | Repeat

  /**
   The part of the program state the callback touches: the camera
   configuration (an `int` in the source that starts at 0 and is only ever
   changed here, so never negative), or the program has exited.
   */
  datatype App = Running(cameraConfig: nat) | Exited

  /** The camera configuration `UpdateCameraConfig` recognises. */
  predicate KnownConfig(c: nat) {
    0 <= c < N_CAMERA_CONFIGS
  }

  /** One call of the callback. */
  function HandleKey(s: App, key: Key, action: Action): (r: App)
    ensures action != Press || s == Exited || key == OtherKey ==> r == s
    ensures s.Running? && action == Press && key == KeyQ ==> r == Exited
    ensures s.Running? && action == Press && key == KeySpace && KnownConfig(s.cameraConfig) ==>
              r.Running? && KnownConfig(r.cameraConfig)
              && (s.cameraConfig < N_CAMERA_CONFIGS - 1 ==> r.cameraConfig == s.cameraConfig + 1)
              && (s.cameraConfig == N_CAMERA_CONFIGS - 1 ==> r.cameraConfig == 0)
  {
    if action != Press then s
    else match s
      case Exited => s
      case Running(c) =>
        match key
        case KeyQ => Exited
        case KeySpace => Running((c + 1) % N_CAMERA_CONFIGS)
        case OtherKey => s
  }

  /** The state after pressing the space bar n times. */
  function PressSpace(s: App, n: nat): App
    decreases n
  {
    if n == 0 then s else PressSpace(HandleKey(s, KeySpace, Press), n - 1)
  }

  /** From the initial configuration 0, n presses of the space bar select configuration n mod 3. */
  lemma {:induction false} SpaceCyclesConfigs(n: nat)
    ensures PressSpace(Running(0), n) == Running(n % N_CAMERA_CONFIGS)
  {
    SpaceFrom(0, n);
  }

  lemma {:induction false} SpaceFrom(c: nat, n: nat)
    requires c < N_CAMERA_CONFIGS
    ensures PressSpace(Running(c), n) == Running((c + n) % N_CAMERA_CONFIGS)
    decreases n
  {
    if n > 0 {
      SpaceFrom((c + 1) % N_CAMERA_CONFIGS, n - 1);
      assert ((c + 1) % 3 + (n - 1)) % 3 == (c + n) % 3;
    }
  }

  /** Whatever keys are pressed, a program running in a known configuration stays in a known configuration. */
  lemma {:induction false} ConfigStaysKnown(s: App, keys: seq<(Key, Action)>)
    requires s.Running? ==> KnownConfig(s.cameraConfig)
    ensures var r := HandleKeys(s, keys); r.Running? ==> KnownConfig(r.cameraConfig)
    decreases |keys|
  {
    if keys != [] {
      ConfigStaysKnown(HandleKey(s, keys[0].0, keys[0].1), keys[1..]);
    }
  }

  /** The state after a sequence of callback calls. */
  function HandleKeys(s: App, keys: seq<(Key, Action)>): App
    decreases |keys|
  {
    if keys == [] then s else HandleKeys(HandleKey(s, keys[0].0, keys[0].1), keys[1..])
  }

  /** Once the program has exited, no key changes anything. */
  lemma {:induction false} ExitIsFinal(keys: seq<(Key, Action)>)
    ensures HandleKeys(Exited, keys) == Exited
    decreases |keys|
  {
    if keys != [] {
      ExitIsFinal(keys[1..]);
    }
  }
}
