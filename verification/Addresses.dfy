/** Completing address lists keeps their meaning, apart from one notation. */
module Addresses {
  import opened Wrappers
  import opened Model
  import opened Render

  // ---------------------------------------------------------------- the text of an entry

  lemma {:induction false} TrimLeftSplits(s: string) returns (a: string)
    ensures s == a + TrimLeft(s) && AllBlank(a) && (TrimLeft(s) == "" || !Blank(TrimLeft(s)[0]))
  {
    a := "";
    if s != "" && Blank(s[0]) {
      var rest := TrimLeftSplits(s[1..]);
      a := [s[0]] + rest;
      assert s == [s[0]] + s[1..];
    }
  }

  lemma {:induction false} TrimRightSplits(s: string) returns (b: string)
    ensures s == TrimRight(s) + b && AllBlank(b) && (TrimRight(s) == "" || !Blank(TrimRight(s)[|TrimRight(s)| - 1]))
  {
    b := "";
    if s != "" && Blank(s[|s| - 1]) {
      var rest := TrimRightSplits(s[..|s| - 1]);
      b := rest + [s[|s| - 1]];
      assert s == s[..|s| - 1] + [s[|s| - 1]];
    }
  }

  lemma TrimIsCore(e: string)
    ensures Core(e, Trim(e))
  {
    var a := TrimLeftSplits(e);
    var b := TrimRightSplits(TrimLeft(e));
    var t := Trim(e);
    assert e == a + t + b;
    if t != "" { assert TrimLeft(e)[0] == t[0]; }
  }

  lemma {:induction false} BlanksBefore(a: string, s: string)
    requires AllBlank(a)
    ensures TrimLeft(a + s) == TrimLeft(s)
  {
    if a == "" {
      assert a + s == s;
    } else {
      assert (a + s)[1..] == a[1..] + s;
      BlanksBefore(a[1..], s);
    }
  }

  lemma {:induction false} BlanksAfter(s: string, b: string)
    requires AllBlank(b)
    ensures TrimRight(s + b) == TrimRight(s)
  {
    if b == "" {
      assert s + b == s;
    } else {
      assert (s + b)[..|s + b| - 1] == s + b[..|b| - 1];
      BlanksAfter(s, b[..|b| - 1]);
    }
  }

  lemma CoreIsTrim(e: string, t: string)
    requires Core(e, t)
    ensures t == Trim(e)
  {
    var a, b :| e == a + t + b && AllBlank(a) && AllBlank(b);
    assert e == a + (t + b);
    BlanksBefore(a, t + b);
    BlanksAfter(t, b);
    if t == "" {
      assert t + b == b;
      BlanksBefore(b, "");
      assert b + "" == b;
    } else {
      assert (t + b)[0] == t[0];
    }
  }

  // ---------------------------------------------------------------- entries and lists

  lemma StandsForItsText(w: World, e: string, ip: string)
    ensures var t := Trim(e);
            Stands(w, e, ip) <==> t != "" && if '/' in t then (w.inRange)(t, ip) else (w.sameAddress)(t, ip)
  {
    TrimIsCore(e);
    forall t | Core(e, t) ensures t == Trim(e) {
      CoreIsTrim(e, t);
    }
  }

  // A valid entry is rendered as exactly what it stands for, if and only if it is not an IPv4
  // address in IPv6 notation.
  lemma EntryKeepsItsMeaningExactlyWhen(w: World, e: string)
    requires AddressLaws(w) && ValidEntry(w, e)
    ensures NormalizeEntry(w, e).Some?
    ensures (forall ip :: (w.inRange)(NormalizeEntry(w, e).value, ip) <==> Stands(w, e, ip)) <==> !MappedEntry(w, e)
  {
    var t := Trim(e);
    forall ip ensures Stands(w, e, ip) <==> if '/' in t then (w.inRange)(t, ip) else (w.sameAddress)(t, ip) {
      StandsForItsText(w, e, ip);
    }
    if Mapped(w, t) {
      var ip :| (w.inRange)(t + "/32", ip) != (w.sameAddress)(t, ip);
      assert !((w.inRange)(NormalizeEntry(w, e).value, ip) <==> Stands(w, e, ip));
    }
  }

  // A list whose entries are all valid and in plain notation.
  ghost predicate Plainly(w: World, list: seq<string>) {
    forall e | e in list :: ValidEntry(w, e) && !MappedEntry(w, e)
  }

  // Trimming and completing such a list changes no address's membership.
  lemma {:induction false} NormalizingKeepsMembership(w: World, list: seq<string>, ip: string)
    requires AddressLaws(w) && Plainly(w, list)
    ensures InRanges(w, NormalizeRanges(w, list), ip) <==> Listed(w, list, ip)
  {
    if list != [] {
      var init, e := list[..|list| - 1], list[|list| - 1];
      assert list == init + [e];
      NormalizingKeepsMembership(w, init, ip);
      EntryKeepsItsMeaningExactlyWhen(w, e);
      RangesGrow(w, NormalizeRanges(w, init), NormalizeEntry(w, e).value, ip);
      assert Listed(w, list, ip) <==> Listed(w, init, ip) || Stands(w, e, ip) by {
        assert forall x :: x in list <==> x in init || x == e;
      }
    }
  }

  lemma RangesGrow(w: World, ranges: seq<string>, c: string, ip: string)
    ensures InRanges(w, ranges + [c], ip) <==> InRanges(w, ranges, ip) || (w.inRange)(c, ip)
  {
    assert forall x :: x in ranges + [c] <==> x in ranges || x == c;
  }

  lemma BareIsItsOwnCore(t: string)
    requires t != "" && !Blank(t[0]) && !Blank(t[|t| - 1])
    ensures Core(t, t)
  {
    var a, b := "", "";
    assert t == a + t + b && AllBlank(a) && AllBlank(b);
  }

  // A list of one mapped address: in any world the laws allow, some address is judged wrongly.
  lemma MappedAddressIsMisread(w: World, t: string) returns (ip: string)
    requires AddressLaws(w) && Mapped(w, t) && !Blank(t[0]) && !Blank(t[|t| - 1])
    ensures InRanges(w, NormalizeRanges(w, [t]), ip) != Listed(w, [t], ip)
  {
    BareIsItsOwnCore(t);
    CoreIsTrim(t, t);
    ip :| (w.inRange)(t + "/32", ip) != (w.sameAddress)(t, ip);
    StandsForItsText(w, t, ip);
    assert [t][..0] == [];
    assert NormalizeRanges(w, []) == [];
    RangesGrow(w, [], t + "/32", ip);
    assert [] + [t + "/32"] == [t + "/32"];
    assert t in [t];
  }

  lemma AMappedAddress(w: World) returns (ip: string)
    requires AddressLaws(w) && (w.isIP)("::ffff:192.0.2.1") && (w.isIPv4)("::ffff:192.0.2.1")
    ensures InRanges(w, NormalizeRanges(w, ["::ffff:192.0.2.1"]), ip) != Listed(w, ["::ffff:192.0.2.1"], ip)
  {
    var t := "::ffff:192.0.2.1";
    assert t[0] == ':' && t[|t| - 1] == '1';
    ip := MappedAddressIsMisread(w, t);
  }
}
