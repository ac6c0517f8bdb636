/** The rate key of a gift wrap, shared by the write policy and the read gate. */
module GiftKeys {
  import opened Text

  function GiftKey(sender: string, recipient: string): string {
    "gift:" + sender + ":" + recipient
  }

  /** A gift key names its sender and recipient, and is nobody's author key. */
  lemma {:induction false} GiftKeysAreDistinct(a: string, b: string, r: string, s: string)
    requires IsHex64(r) && IsHex64(s)
    ensures GiftKey(a, r) == GiftKey(b, s) <==> a == b && r == s
    ensures forall author :: IsHex64(author) ==> GiftKey(a, r) != author
  {
    var x, y := GiftKey(a, r), GiftKey(b, s);
    if x == y {
      assert x[|x| - 64..] == r && y[|y| - 64..] == s;
      assert x[5..|x| - 65] == a && y[5..|y| - 65] == b;
    }
    assert x[0] == 'g';
  }
}
