/** The loops of bech32.cpp. */
module Bech32Codec {
  import opened Collections
  import opened Shifts
  import opened Bech32
  import B = Bech32

  method PolyMod(v: seq<nat>) returns (c: nat)
    ensures c == B.PolyMod(v)
  {
    c := 1;
    var i := 0;
    EmptyAppend(v);
    while i < |v|
      invariant 0 <= i <= |v| && Fold(c, v[i..]) == B.PolyMod(v)
    {
      FoldNext(c, v, i);
      c := Round(c, v[i]);
      i := i + 1;
    }
  }

  lemma {:induction false} FoldNext(c: nat, v: seq<nat>, i: nat)
    requires i < |v|
    ensures Fold(c, v[i..]) == Fold(Step(c, v[i]), v[i + 1..])
  {
    DropDrop(v, i, 1);
  }

  /** The body of the loop: shift in the value, then add the multiples of k(x) one by one. */
  method Round(c: nat, v: nat) returns (r: nat)
    ensures r == Step(c, v)
  {
    var c0 := Shr(c, 25);
    r := Xor(Shl(Low(c, 25), 5), v);
    InOneSum(r, Term(c0, 0, 0x3b6a57b2), Term(c0, 1, 0x26508e6d), Term(c0, 2, 0x1ea119fa), Term(c0, 3, 0x3d4233dd),
      Term(c0, 4, 0x2a1462b3));
    r := AddTerm(r, c0, 0, 0x3b6a57b2);
    r := AddTerm(r, c0, 1, 0x26508e6d);
    r := AddTerm(r, c0, 2, 0x1ea119fa);
    r := AddTerm(r, c0, 3, 0x3d4233dd);
    r := AddTerm(r, c0, 4, 0x2a1462b3);
  }

  method AddTerm(c: nat, c0: nat, k: nat, g: nat) returns (r: nat)
    ensures r == Xor(c, Term(c0, k, g))
  {
    r := c;
    XorZero(c);
    if Bit(c0, k) {
      r := Xor(r, g);
    }
  }

  lemma {:induction false} InOneSum(x: nat, a: nat, b: nat, c: nat, d: nat, e: nat)
    ensures Xor(Xor(Xor(Xor(Xor(x, a), b), c), d), e) == Xor(x, Xor(a, Xor(b, Xor(c, Xor(d, e)))))
  {
    XorAssoc(Xor(Xor(Xor(x, a), b), c), d, e);
    XorAssoc(Xor(Xor(x, a), b), c, Xor(d, e));
    XorAssoc(Xor(x, a), b, Xor(c, Xor(d, e)));
    XorAssoc(x, a, Xor(b, Xor(c, Xor(d, e))));
  }

  method ExpandHRP(hrp: string) returns (ret: seq<nat>)
    ensures ret == B.ExpandHRP(hrp)
  {
    ret := seq(|hrp| * 2 + 1, _ => 0);
    var i := 0;
    while i < |hrp|
      invariant 0 <= i <= |hrp| && |ret| == |hrp| * 2 + 1 && ret[|hrp|] == 0
      invariant forall k :: 0 <= k < i ==> ret[k] == hrp[k] as nat / 32 && ret[k + |hrp| + 1] == hrp[k] as nat % 32
    {
      ret := ret[i := hrp[i] as nat / 32];
      ret := ret[i + |hrp| + 1 := hrp[i] as nat % 32];
      i := i + 1;
    }
    ret := ret[|hrp| := 0];
    forall k | 0 <= k < |ret|
      ensures ret[k] == B.ExpandHRP(hrp)[k]
    {
      assert k > |hrp| ==> ret[(k - |hrp| - 1) + |hrp| + 1] == hrp[k - |hrp| - 1] as nat % 32;
    }
  }

  lemma {:induction false} GroupsAt(mod: nat, n: nat, i: nat)
    requires i < n
    ensures Groups(mod, n)[i] == Low(Shr(mod, 5 * (n - 1 - i)), 5)
    decreases n
  {
    if i < n - 1 {
      GroupsAt(Shr(mod, 5), n - 1, i);
      ShrPlus(mod, 5, 5 * (n - 2 - i));
    }
  }

  method SplitGroups(mod: nat) returns (ret: seq<nat>)
    ensures ret == Groups(mod, 6)
  {
    ret := Zeros(6);
    var i := 0;
    while i < 6
      invariant 0 <= i <= 6 && |ret| == 6
      invariant forall k :: 0 <= k < i ==> ret[k] == Groups(mod, 6)[k]
    {
      GroupsAt(mod, 6, i);
      ret := ret[i := Low(Shr(mod, 5 * (5 - i)), 5)];
      i := i + 1;
    }
  }

  method CreateChecksum(hrp: string, values: seq<nat>) returns (ret: seq<nat>)
    ensures ret == B.CreateChecksum(hrp, values)
  {
    var enc := ExpandHRP(hrp);
    enc := enc + values;
    enc := enc + Zeros(6);
    var mod := PolyMod(enc);
    mod := Xor(mod, 1);
    ret := SplitGroups(mod);
  }

  method VerifyChecksum(hrp: string, values: seq<nat>) returns (ok: bool)
    ensures ok == B.VerifyChecksum(hrp, values)
  {
    var enc := ExpandHRP(hrp);
    var mod := PolyMod(enc + values);
    ok := mod == 1;
  }

  method Encode(hrp: string, values: seq<nat>) returns (ret: string)
    requires FiveBit(values)
    ensures ret == B.Encode(hrp, values)
  {
    var checksum := CreateChecksum(hrp, values);
    var combined := values + checksum;
    ret := hrp + "1";
    var i := 0;
    while i < |combined|
      invariant 0 <= i <= |combined| && ret == hrp + "1" + Chars(combined)[..i]
    {
      AppendTake(hrp + "1", Chars(combined), i);
      ret := ret + [Charset(combined[i])];
      i := i + 1;
    }
    TakeAll(Chars(combined));
  }

  /** Whether all characters are printable and of one case. */
  method CheckCharacters(str: string) returns (ok: bool)
    ensures ok == (AllPrintable(str) && !(HasLower(str) && HasUpper(str)))
  {
    var lower, upper := false, false;
    var i := 0;
    while i < |str|
      invariant 0 <= i <= |str| && AllPrintable(str[..i]) && lower == HasLower(str[..i]) && upper == HasUpper(str[..i])
    {
      var c := str[i];
      assert str[..i + 1] == str[..i] + [c];
      PrefixNext(str[..i], c);
      if IsLower(c) {
        lower := true;
      } else if IsUpper(c) {
        upper := true;
      } else if !Printable(c) {
        return false;
      }
      i := i + 1;
    }
    TakeAll(str);
    return !(lower && upper);
  }

  lemma {:induction false} PrefixNext(s: string, c: char)
    ensures AllPrintable(s + [c]) <==> AllPrintable(s) && Printable(c)
    ensures HasLower(s + [c]) <==> HasLower(s) || IsLower(c)
    ensures HasUpper(s + [c]) <==> HasUpper(s) || IsUpper(c)
  {
    var t := s + [c];
    assert t[|s|] == c;
    assert forall i :: 0 <= i < |s| ==> t[i] == s[i];
  }

  method FindLast(s: string, c: char) returns (pos: int)
    ensures pos == RFind(s, c)
  {
    pos := |s| - 1;
    TakeAll(s);
    while pos >= 0 && s[pos] != c
      invariant -1 <= pos < |s| && RFind(s[..pos + 1], c) == RFind(s, c)
    {
      TakeTake(s, pos, pos + 1);
      pos := pos - 1;
    }
  }

  method DecodeValues(s: string) returns (ok: bool, values: seq<nat>)
    ensures ok == InCharset(s) && (ok ==> values == Values(s))
  {
    values := [];
    var i := 0;
    while i < |s|
      invariant 0 <= i <= |s| && |values| == i
      invariant forall k :: 0 <= k < i ==> CharsetRev(s[k]) != -1 && values[k] == CharsetRev(s[k])
    {
      var rev := CharsetRev(s[i]);
      if rev == -1 {
        return false, [];
      }
      CharsetRevRoundTrip(s[i]);
      values := values + [rev];
      i := i + 1;
    }
    return true, values;
  }

  method LowerAll(s: string) returns (r: string)
    ensures r == Lower(s)
  {
    r := "";
    var i := 0;
    while i < |s|
      invariant 0 <= i <= |s| && r == Lower(s)[..i]
    {
      TakeNext(Lower(s), i);
      r := r + [LowerCase(s[i])];
      i := i + 1;
    }
    TakeAll(Lower(s));
  }

  method Decode(str: string) returns (r: Option<(string, seq<nat>)>)
    ensures r == B.Decode(str)
  {
    var ok := CheckCharacters(str);
    if !ok {
      return None;
    }
    var pos := FindLast(str, '1');
    r := DecodeAt(str, pos);
  }

  method DecodeAt(str: string, pos: int) returns (r: Option<(string, seq<nat>)>)
    requires -1 <= pos < |str|
    ensures r == B.DecodeAt(str, pos)
  {
    if |str| > 90 || pos == -1 || pos == 0 || pos + 7 > |str| {
      return None;
    }
    var ok, values := DecodeValues(str[pos + 1..]);
    if !ok {
      return None;
    }
    var hrp := LowerAll(str[..pos]);
    r := DecodeParts(hrp, values);
  }

  method DecodeParts(hrp: string, values: seq<nat>) returns (r: Option<(string, seq<nat>)>)
    requires |values| >= 6
    ensures r == B.DecodeParts(hrp, values)
  {
    var ok := VerifyChecksum(hrp, values);
    if !ok {
      return None;
    }
    return Some((hrp, values[..|values| - 6]));
  }
}
