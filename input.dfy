/** Logical actions over the browser keymaps. KEYMAP holds the keys down in
    this frame and KEYMAP_PREV those down in the previous frame; a key that
    was never seen is undefined, which reads as not down. */
module Input {

  type Keymap = map<string, bool>

  /** The current and the previous frame's keymaps. */
  datatype Keyboard = Keyboard(now: Keymap, prev: Keymap)

  datatype Action =
    | Up | Down | Left | Right | Action1 | Action2 | Action3 | Action4
    | Menu | Restart | SwitchWeapon | WeaponNum

  /** The keys bound to each action. */
  function Bindings(a: Action): seq<string>
  {
    match a
    case Up => ["w", "arrowup"]
    case Down => ["s", "arrowdown"]
    case Left => ["a", "arrowleft"]
    case Right => ["d", "arrowright"]
    case Action1 => [" ", "j"]
    case Action2 => ["k"]
    case Action3 => ["l"]
    case Action4 => ["ö", "'"]
    case Menu => ["escape", "p"]
    case Restart => ["r"]
    case SwitchWeapon => ["q", "alt"]
    case WeaponNum => ["1", "2", "3"]
  }

  /** JavaScript truthiness of `km[key]`: undefined and false are not down. */
  predicate IsDown(km: Keymap, key: string)
  {
    key in km && km[key]
  }

  /** `keys.some(p)` */
  function AnyKey(keys: seq<string>, p: string -> bool): (r: bool)
    ensures r <==> exists i :: 0 <= i < |keys| && p(keys[i])
  {
    if keys == [] then false else p(keys[0]) || AnyKey(keys[1..], p)
  }

  /** `keys.every(p)` */
  function EveryKey(keys: seq<string>, p: string -> bool): (r: bool)
    ensures r <==> forall i :: 0 <= i < |keys| ==> p(keys[i])
  {
    if keys == [] then true else p(keys[0]) && EveryKey(keys[1..], p)
  }

  /** `keyDown`: some key bound to `a` is down now. */
  predicate KeyDown(kb: Keyboard, a: Action): (r: bool)
    ensures r <==> exists k :: k in Bindings(a) && IsDown(kb.now, k)
  {
    AnyKey(Bindings(a), k => IsDown(kb.now, k))
  }

  /** `keyPress`: some key bound to `a` is down now and none was down in
      the previous frame. */
  predicate KeyPress(kb: Keyboard, a: Action): (r: bool)
    ensures r <==>
      (exists k :: k in Bindings(a) && IsDown(kb.now, k)) &&
      (forall k :: k in Bindings(a) ==> !IsDown(kb.prev, k))
  {
    AnyKey(Bindings(a), k => IsDown(kb.now, k)) && EveryKey(Bindings(a), k => !IsDown(kb.prev, k))
  }

  /** `keyUp`: some key bound to `a` is up now and every one was down in
      the previous frame. */
  predicate KeyUp(kb: Keyboard, a: Action): (r: bool)
    ensures r <==>
      (exists k :: k in Bindings(a) && !IsDown(kb.now, k)) &&
      (forall k :: k in Bindings(a) ==> IsDown(kb.prev, k))
  {
    AnyKey(Bindings(a), k => !IsDown(kb.now, k)) && EveryKey(Bindings(a), k => IsDown(kb.prev, k))
  }

  lemma KeyPressIsKeyDown(kb: Keyboard, a: Action)
    ensures KeyPress(kb, a) ==> KeyDown(kb, a)
  {
  }

  /** A key held across two frames does not fire a second press. */
  lemma HeldKeyDoesNotRefire(kb: Keyboard, a: Action)
    requires forall k :: k in Bindings(a) ==> (IsDown(kb.now, k) <==> IsDown(kb.prev, k))
    ensures !KeyPress(kb, a)
  {
  }
}
