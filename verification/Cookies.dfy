/** Signed session cookies: base64url(id) "." base64url(mac(id)). */
module Cookies {
  import opened Base64
  import opened Bytes
  import opened Wrappers

  type Digest = d: Text | |d| == 32 witness seq(32, (i: nat) => '0')

  /** `mac` stands for HMAC-SHA256 under the service's key. */
  class SignedCookie {
    const mac: Text -> Digest

    constructor (mac: Text -> Digest)
      ensures this.mac == mac
    {
      this.mac := mac;
    }

    function Sign(sessionId: Text): Text {
      Encode(sessionId) + ['.'] + Encode(mac(sessionId))
    }

    /** None stands for the one error the program reports. */
    function Verify(value: Text): Option<Text> {
      var dot := IndexByte(value, '.');
      if dot == |value| || dot == 0 || dot == |value| - 1 then None
      else
        match Decode(value[..dot], true)
        case None => None
        case Some(id) =>
          match Decode(value[dot + 1..], true)
          case None => None
          case Some(got) => if got == mac(id) then Some(id) else None
    }

    lemma {:induction false} DotOfSigned(value: Text, id: Text) returns (dot: nat)
      requires Strip(value) == Sign(id)
      ensures dot == IndexByte(value, '.') && dot < |value|
      ensures Strip(value[..dot]) == Encode(id) && Strip(value[dot + 1..]) == Encode(mac(id))
    {
      EncodeAlphabetic(id);
      EncodeAlphabetic(mac(id));
      AlphabeticClean(Encode(id));
      AlphabeticClean(Encode(mac(id)));
      dot := IndexByte(value, '.');
      assert Sign(id)[|Encode(id)|] == '.';
      StripKeepsDots(value);
      IndexFound(value, '.');
      assert value == value[..dot] + value[dot..] && value[dot..] == ['.'] + value[dot + 1..];
      StripSum(value[..dot], value[dot..]);
      StripKeepsDots(value[..dot]);
      assert Strip(value[dot..]) == ['.'] + Strip(value[dot + 1..]);
      SplitOnce(Strip(value[..dot]), Strip(value[dot + 1..]), Encode(id), Encode(mac(id)), '.');
    }

    lemma {:induction false} SignedForm(value: Text, id: Text)
      requires IndexByte(value, '.') < |value|
      requires Strip(value[..IndexByte(value, '.')]) == Encode(id)
      requires Strip(value[IndexByte(value, '.') + 1..]) == Encode(mac(id))
      ensures Strip(value) == Sign(id)
    {
      var dot := IndexByte(value, '.');
      assert value == value[..dot] + value[dot..] && value[dot..] == ['.'] + value[dot + 1..];
      StripSum(value[..dot], value[dot..]);
      assert Strip(value[dot..]) == ['.'] + Strip(value[dot + 1..]);
    }

    /**
      A value verifies as id iff it is the signed form of id up to line breaks and does not start with
      a dot. A forged, truncated or non-canonical value verifies as nothing.
    */
    lemma {:induction false} VerifyExact(value: Text, id: Text)
      ensures Verify(value) == Some(id) <==> (Strip(value) == Sign(id) && value[0] != '.')
    {
      EncodeAlphabetic(mac(id));
      if Strip(value) == Sign(id) && value[0] != '.' {
        var dot := DotOfSigned(value, id);
        StrictExact(value[..dot], id);
        StrictExact(value[dot + 1..], mac(id));
      }
      if Verify(value) == Some(id) {
        var dot := IndexByte(value, '.');
        StrictExact(value[..dot], id);
        StrictExact(value[dot + 1..], mac(id));
        SignedForm(value, id);
      }
    }

    /** For values without line breaks: the signed form and nothing else, and only for a non-empty id. */
    lemma {:induction false} VerifyCanonical(value: Text, id: Text)
      requires NoLineBreak(value)
      ensures Verify(value) == Some(id) <==> (value == Sign(id) && id != [])
    {
      VerifyExact(value, id);
      StripClean(value);
      EncodeAlphabetic(id);
      AlphabeticClean(Encode(id));
      if id == [] {
        assert Encode(id) == [];
      } else {
        assert Sign(id)[0] == Encode(id)[0];
      }
    }

    /** A signed cookie verifies as its id, except that of the empty id, which never does. */
    lemma {:induction false} SignThenVerify(id: Text)
      ensures Verify(Sign(id)) == if id == [] then None else Some(id)
    {
      SignedClean(id);
      VerifyCanonical(Sign(id), id);
      if id == [] {
        assert Sign(id)[0] == '.';
      }
    }

    lemma {:induction false} SignedClean(id: Text)
      ensures NoLineBreak(Sign(id))
    {
      EncodeAlphabetic(id);
      EncodeAlphabetic(mac(id));
      AlphabeticClean(Encode(id));
      AlphabeticClean(Encode(mac(id)));
    }
  }

  lemma {:induction false} StripKeepsDots(t: Text)
    ensures '.' in Strip(t) <==> '.' in t
  {
    if t != [] {
      StripKeepsDots(t[1..]);
      assert t == [t[0]] + t[1..];
    }
  }
}
