/** Signing and verifying media URLs. The keyed MAC of RFC 2104 is a function that is not
    interpreted; of its result only the hexadecimal encoding is used. */
module MediaSigner {
  import opened Text

  predicate IsHex(c: char) { '0' <= c <= '9' || 'a' <= c <= 'f' }

  type Hex = s: string | s != "" && forall i :: 0 <= i < |s| ==> IsHex(s[i]) witness "0"

  /** The signer with its secret key: the MAC of a message under that key, in hexadecimal. */
  datatype Signer = Signer(mac: string -> Hex)

  /** The text that is signed. */
  function Message(path: string, exp: int): string {
    path + ":" + Itoa(exp)
  }

  function Sign(signer: Signer, path: string, expirySeconds: int, now: int): (Hex, int) {
    var exp := now + expirySeconds;
    (signer.mac(Message(path, exp)), exp)
  }

  predicate Verify(signer: Signer, path: string, sig: string, exp: int, now: int) {
    now <= exp && signer.mac(Message(path, exp)) == sig
  }

  function SignQuery(signer: Signer, path: string, expirySeconds: int, now: int): string {
    var (sig, exp) := Sign(signer, path, expirySeconds, now);
    "sig=" + sig + "&exp=" + Itoa(exp)
  }

  /** The signed text determines path and expiry, although a path may contain colons: an expiry
      has none. */
  lemma MessageIsInjective(path1: string, exp1: int, path2: string, exp2: int)
    requires Message(path1, exp1) == Message(path2, exp2)
    ensures path1 == path2 && exp1 == exp2
  {
    var m, e1, e2 := Message(path1, exp1), Itoa(exp1), Itoa(exp2);
    assert m[|path1|] == ':' && m[|path2|] == ':';
    // after its colon the message has no other
    assert forall i :: |path1| < i < |m| ==> m[i] == e1[i - |path1| - 1] != ':';
    assert forall i :: |path2| < i < |m| ==> m[i] == e2[i - |path2| - 1] != ':';
    assert m[..|path1|] == path1 && m[..|path2|] == path2;
    assert m[|path1| + 1..] == e1 && m[|path2| + 1..] == e2;
    ItoaInjective(exp1, exp2);
  }

  /** A signature verifies for the path and expiry it was made for up to its expiry, and, as long
      as the MAC does not collide, for no others and no later. */
  lemma VerifyIff(signer: Signer, path: string, expirySeconds: int, now: int, path': string, exp': int, later: int)
    requires var (sig, exp) := Sign(signer, path, expirySeconds, now);
             signer.mac(Message(path', exp')) == sig ==> Message(path', exp') == Message(path, exp)
    ensures var (sig, exp) := Sign(signer, path, expirySeconds, now);
            Verify(signer, path', sig, exp', later) <==> path' == path && exp' == exp && later <= exp
  {
    var (sig, exp) := Sign(signer, path, expirySeconds, now);
    if signer.mac(Message(path', exp')) == sig {
      MessageIsInjective(path', exp', path, exp);
    }
  }
}
