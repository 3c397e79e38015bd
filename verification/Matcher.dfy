// The matcher of xv6-x86/grep.c, proved to decide the language its pattern describes.
// Strings end where the sequence ends; no character is NUL.
module Matcher {

  // ---- what a pattern means

  // A character or any character, once or any number of times.
  datatype Item = One(c: char) | Star(c: char)

  // The items, and whether the text must end where they do.
  datatype Pattern = Pattern(items: seq<Item>, end: bool)

  function Parse(re: string): Pattern {
    if re == "" then Pattern([], false)
    else if |re| > 1 && re[1] == '*' then
      var p := Parse(re[2..]);
      p.(items := [Star(re[0])] + p.items)
    else if re == "$" then Pattern([], true)
    else
      var p := Parse(re[1..]);
      p.(items := [One(re[0])] + p.items)
  }

  predicate Fits(c: char, x: char) { c == '.' || c == x }

  predicate Piece(i: Item, w: string) {
    match i
    case One(c) => |w| == 1 && Fits(c, w[0])
    case Star(c) => forall j :: 0 <= j < |w| ==> Fits(c, w[j])
  }

  // w is one piece for each item, in order.
  predicate Spells(items: seq<Item>, w: string) {
    if items == [] then w == ""
    else exists k :: 0 <= k <= |w| && Piece(items[0], w[..k]) && Spells(items[1..], w[k..])
  }

  // The pattern matches at the beginning of the text.
  predicate Here(p: Pattern, text: string) {
    exists j :: 0 <= j <= |text| && Spells(p.items, text[..j]) && (p.end ==> j == |text|)
  }

  // The text has a substring in the pattern's language, at the beginning if it starts with ^.
  predicate Matches(re: string, text: string) {
    if re != "" && re[0] == '^' then Here(Parse(re[1..]), text)
    else exists i :: 0 <= i <= |text| && Here(Parse(re), text[i..])
  }

  // ---- the code

  method Match(re: string, text: string) returns (r: bool)
    ensures r <==> Matches(re, text)
  {
    if re != "" && re[0] == '^' {
      r := MatchHere(re[1..], text);
      return;
    }
    hide Here, Parse;
    var i := 0;
    while true
      invariant 0 <= i <= |text|
      invariant forall k :: 0 <= k < i ==> !Here(Parse(re), text[k..])
      decreases |text| - i
    {
      r := MatchHere(re, text[i..]);
      if r {
        return;
      }
      if i == |text| {
        return;
      }
      i := i + 1;
    }
  }

  method MatchHere(re: string, text: string) returns (r: bool)
    ensures r <==> Here(Parse(re), text)
    decreases |re|, 0
  {
    if re == "" {
      assert text[..0] == "";
      assert Spells([], text[..0]);
      return true;
    }
    if |re| > 1 && re[1] == '*' {
      r := MatchStar(re[0], re[2..], text);
      HereStar(re[0], Parse(re[2..]), text);
      return;
    }
    if re[0] == '$' && |re| == 1 {
      HereEnd(text);
      return text == "";
    }
    HereOne(re[0], Parse(re[1..]), text);
    if text != "" && (re[0] == '.' || re[0] == text[0]) {
      r := MatchHere(re[1..], text[1..]);
      return;
    }
    r := false;
  }

  // The first i characters of the text fit c.
  predicate Run(c: char, text: string, i: nat) {
    i <= |text| && forall j :: 0 <= j < i ==> Fits(c, text[j])
  }

  method MatchStar(c: char, re: string, text: string) returns (r: bool)
    ensures r <==> exists i :: 0 <= i <= |text| && Run(c, text, i) && Here(Parse(re), text[i..])
    decreases |re|, 1
  {
    hide Here, Parse;
    var i := 0;
    while true
      invariant 0 <= i <= |text| && Run(c, text, i)
      invariant forall k :: 0 <= k < i ==> !Here(Parse(re), text[k..])
      decreases |text| - i
    {
      r := MatchHere(re, text[i..]);
      if r {
        return;
      }
      if i == |text| || !(text[i] == c || c == '.') {
        assert forall k :: i < k <= |text| ==> !Run(c, text, k);
        return;
      }
      i := i + 1;
    }
  }

  // ---- the steps of the meaning

  lemma HereEnd(text: string)
    ensures Here(Pattern([], true), text) <==> text == ""
  {
    if text == "" {
      assert Spells([], text[..0]);
    }
  }

  lemma HereOne(c: char, p: Pattern, text: string)
    ensures Here(p.(items := [One(c)] + p.items), text) <==> text != "" && Fits(c, text[0]) && Here(p, text[1..])
  {
    var q := [One(c)] + p.items;
    assert q[0] == One(c) && q[1..] == p.items;
    if j :| 0 <= j <= |text| && Spells(q, text[..j]) && (p.end ==> j == |text|) {
      var w := text[..j];
      var k :| 0 <= k <= |w| && Piece(q[0], w[..k]) && Spells(q[1..], w[k..]);
      assert w[1..] == text[1..][..j - 1];
    }
    if text != "" && Fits(c, text[0]) {
      if j :| 0 <= j <= |text[1..]| && Spells(p.items, text[1..][..j]) && (p.end ==> j == |text[1..]|) {
        var w := text[..j + 1];
        assert Piece(q[0], w[..1]) && w[1..] == text[1..][..j];
        assert Spells(q, w);
      }
    }
  }

  lemma HereStar(c: char, p: Pattern, text: string)
    ensures Here(p.(items := [Star(c)] + p.items), text) <==>
        exists i :: 0 <= i <= |text| && Run(c, text, i) && Here(p, text[i..])
  {
    var q := [Star(c)] + p.items;
    assert q[0] == Star(c) && q[1..] == p.items;
    if j :| 0 <= j <= |text| && Spells(q, text[..j]) && (p.end ==> j == |text|) {
      var w := text[..j];
      var k :| 0 <= k <= |w| && Piece(q[0], w[..k]) && Spells(q[1..], w[k..]);
      assert w[k..] == text[k..][..j - k];
      assert Run(c, text, k) by {
        forall l | 0 <= l < k ensures Fits(c, text[l]) {
          assert w[..k][l] == text[l];
        }
      }
      assert Here(p, text[k..]);
    }
    if i :| 0 <= i <= |text| && Run(c, text, i) && Here(p, text[i..]) {
      var j :| 0 <= j <= |text[i..]| && Spells(p.items, text[i..][..j]) && (p.end ==> j == |text[i..]|);
      var w := text[..i + j];
      assert w[i..] == text[i..][..j];
      assert Piece(q[0], w[..i]);
      assert Spells(q, w);
    }
  }
}
