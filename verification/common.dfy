/** Values shared by the watch app (C) and the phone companion (JavaScript). */
module Common {

  /** A value that may be absent: a NULL pointer, a missing message field. */
  datatype Option<+T> = None | Some(value: T)

  /** The three meal icons (RESOURCE_ID_IMAGE_VEGAN, _VEGETARIAN and _POT on
      the watch; "IMAGE_VEGAN", "IMAGE_VEGETARIAN" and "IMAGE_POT" on the phone). */
  datatype Icon = Vegan | Vegetarian | Pot

  function Min(a: int, b: int): int { if a < b then a else b }

  /** The first `n` elements of a non-empty sequence: its head, then the
      first `n - 1` elements of its tail. */
  lemma TakeFirst<T>(xs: seq<T>, n: nat)
    requires xs != [] && n > 0
    ensures xs[..Min(n, |xs|)] == [xs[0]] + xs[1..][..Min(n - 1, |xs| - 1)]
  {
  }

  /** Concatenation regrouped: the middle part split in two. */
  lemma Regroup<T>(g: seq<T>, a: seq<T>, b: seq<T>, tail: seq<T>)
    ensures g + (a + b) + tail == g + a + (b + tail)
  {
  }
}
