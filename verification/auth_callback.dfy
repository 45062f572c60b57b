/** `parseHash` of the sign-in callback page: the key/value pairs of a URL
    fragment such as `#access_token=...&refresh_token=...`. */
module AuthCallback {
  import opened Common

  /** `s.split(c)` for a one-character separator: the pieces between the
      separators, in order, with an empty piece before a leading, after a
      trailing and between two adjacent separators. */
  function Split(s: string, c: char): (parts: seq<string>)
    ensures |parts| >= 1
    ensures forall i :: 0 <= i < |parts| ==> c !in parts[i]
    ensures c in s <==> |parts| >= 2
    decreases |s|
  {
    if |s| == 0 then [""]
    else
      var rest := Split(s[1..], c);
      if s[0] == c then [""] + rest
      else [[s[0]] + rest[0]] + rest[1..]
  }

  /** `parts.join(c)`, the inverse of `Split`. */
  function Join(parts: seq<string>, c: char): string
    requires |parts| >= 1
    decreases |parts|
  {
    if |parts| == 1 then parts[0] else parts[0] + [c] + Join(parts[1..], c)
  }

  lemma JoinCons(x: char, p: string, ps: seq<string>, c: char)
    ensures Join([[x] + p] + ps, c) == [x] + Join([p] + ps, c)
  {
    if |ps| > 0 {
      assert ([[x] + p] + ps)[1..] == ps;
      assert ([p] + ps)[1..] == ps;
    }
  }

  /** Joining the pieces with the separator gives back the text. */
  lemma {:induction false} JoinSplit(s: string, c: char)
    ensures Join(Split(s, c), c) == s
    decreases |s|
  {
    if |s| > 0 {
      var rest := Split(s[1..], c);
      JoinSplit(s[1..], c);
      if s[0] == c {
        assert ([""] + rest)[1..] == rest;
      } else {
        assert rest == [rest[0]] + rest[1..];
        JoinCons(s[0], rest[0], rest[1..], c);
      }
    }
  }

  lemma {:induction false} SplitNoSeparator(a: string, c: char)
    requires c !in a
    ensures Split(a, c) == [a]
    decreases |a|
  {
    if |a| > 0 {
      SplitNoSeparator(a[1..], c);
      assert [a[0]] + a[1..] == a;
    }
  }

  lemma {:induction false} SplitAppend(a: string, b: string, c: char)
    requires c !in a
    ensures Split(a + [c] + b, c) == [a] + Split(b, c)
    decreases |a|
  {
    if |a| == 0 {
      assert a + [c] + b == [c] + b;
      assert ([c] + b)[1..] == b;
    } else {
      assert (a + [c] + b)[1..] == a[1..] + [c] + b;
      SplitAppend(a[1..], b, c);
      assert [a[0]] + a[1..] == a;
    }
  }

  /** Splitting pieces joined by a separator they do not contain gives back
      the pieces. */
  lemma {:induction false} SplitJoin(parts: seq<string>, c: char)
    requires |parts| >= 1
    requires forall i :: 0 <= i < |parts| ==> c !in parts[i]
    ensures Split(Join(parts, c), c) == parts
    decreases |parts|
  {
    if |parts| == 1 {
      SplitNoSeparator(parts[0], c);
    } else {
      SplitJoin(parts[1..], c);
      SplitAppend(parts[0], Join(parts[1..], c), c);
      assert [parts[0]] + parts[1..] == parts;
    }
  }

  /** `const [k, v] = part.split('=')`: the key. */
  function KeyOf(part: string): string {
    Split(part, '=')[0]
  }

  /** `v || ''`: the value, or "" when the part has no `=`. */
  function ValueOf(part: string): string {
    var pieces := Split(part, '=');
    if |pieces| >= 2 then pieces[1] else ""
  }

  /** The key is the text before the first `=` (all of the part when it has
      none, and then the value is ""); the value is the text after it up to
      the next `=` or the end. */
  lemma KeyValueSpec(part: string)
    ensures var k := KeyOf(part); var v := ValueOf(part);
      && '=' !in k && '=' !in v
      && ('=' !in part ==> k == part && v == "")
      && ('=' in part ==>
            && |k| + 1 + |v| <= |part|
            && part[..|k|] == k
            && part[|k|] == '='
            && part[|k| + 1..|k| + 1 + |v|] == v
            && (|k| + 1 + |v| == |part| || part[|k| + 1 + |v|] == '='))
  {
    var pieces := Split(part, '=');
    JoinSplit(part, '=');
    if '=' !in part {
      SplitNoSeparator(part, '=');
    } else {
      var tail := pieces[1..];
      assert part == pieces[0] + "=" + Join(tail, '=');
      JoinSplitPrefix(tail);
    }
  }

  lemma JoinSplitPrefix(tail: seq<string>)
    requires |tail| >= 1
    ensures var j := Join(tail, '=');
      && |tail[0]| <= |j| && j[..|tail[0]|] == tail[0]
      && (|tail[0]| == |j| || j[|tail[0]|] == '=')
  {
    if |tail| > 1 {
      var j := Join(tail, '=');
      assert j == tail[0] + ("=" + Join(tail[1..], '='));
    }
  }

  /** `hash.startsWith('#') ? hash.slice(1) : hash`: at most one `#` goes. */
  function StripHash(hash: string): (h: string)
    ensures |hash| > 0 && hash[0] == '#' ==> hash == "#" + h
    ensures (|hash| == 0 || hash[0] != '#') ==> h == hash
  {
    if |hash| > 0 && hash[0] == '#' then hash[1..] else hash
  }

  /** Assigning the string `"__proto__"` on a plain object reaches the
      prototype setter, which ignores strings: no such key is stored. */
  const ProtoKey: string := "__proto__"

  /** The key and value `[k, v]` of one part. */
  datatype Pair = Pair(key: string, value: string)

  /** The pair of every part, in order. */
  function PairsOf(parts: seq<string>): (ps: seq<Pair>)
    ensures |ps| == |parts|
    ensures forall i :: 0 <= i < |parts| ==> ps[i] == Pair(KeyOf(parts[i]), ValueOf(parts[i]))
  {
    seq(|parts|, i requires 0 <= i < |parts| => Pair(KeyOf(parts[i]), ValueOf(parts[i])))
  }

  /** Assigns `out[k] = v` pair by pair; an empty key is skipped. */
  function Collect(ps: seq<Pair>): map<string, string>
    decreases |ps|
  {
    if |ps| == 0 then map[]
    else
      var out := Collect(ps[..|ps| - 1]);
      var p := ps[|ps| - 1];
      if p.key == "" || p.key == ProtoKey then out else out[p.key := p.value]
  }

  /** `parseHash(hash)` with `decodeURIComponent` taken as the identity. */
  function ParseHash(hash: string): map<string, string> {
    if |hash| == 0 then map[] else Collect(PairsOf(Split(StripHash(hash), '&')))
  }

  /** The index of the last pair with key k, or -1 when no pair has it. */
  function LastIndexOf(ps: seq<Pair>, k: string): (i: int)
    ensures -1 <= i < |ps|
    ensures i >= 0 ==> ps[i].key == k
    ensures forall j :: i < j < |ps| ==> ps[j].key != k
    decreases |ps|
  {
    if |ps| == 0 then -1
    else if ps[|ps| - 1].key == k then |ps| - 1
    else
      var i := LastIndexOf(ps[..|ps| - 1], k);
      assert forall j :: i < j < |ps| - 1 ==> ps[..|ps| - 1][j] == ps[j];
      i
  }

  /** The value of the last pair with key k, if any pair has it. */
  function LastValue(ps: seq<Pair>, k: string): Option<string> {
    var i := LastIndexOf(ps, k);
    if i < 0 then None else Some(ps[i].value)
  }

  /** A key is stored exactly when it is not empty, not `"__proto__"`, and
      some pair has it; its value is that of the last such pair. */
  lemma {:induction false} CollectSpec(ps: seq<Pair>, k: string)
    ensures k in Collect(ps) <==> k != "" && k != ProtoKey && LastValue(ps, k).Some?
    ensures k in Collect(ps) ==> Collect(ps)[k] == LastValue(ps, k).value
    decreases |ps|
  {
    if |ps| > 0 {
      var init := ps[..|ps| - 1];
      CollectSpec(init, k);
      if ps[|ps| - 1].key != k && LastIndexOf(init, k) >= 0 {
        assert init[LastIndexOf(init, k)] == ps[LastIndexOf(ps, k)];
      }
    }
  }

  /** No more keys than pairs. */
  lemma {:induction false} CollectSize(ps: seq<Pair>)
    ensures |Collect(ps)| <= |ps|
    decreases |ps|
  {
    if |ps| > 0 {
      CollectSize(ps[..|ps| - 1]);
    }
  }

  /** The empty fragment gives the empty map; otherwise the result holds, for
      every non-empty key of an `&`-separated part of the fragment without
      its `#`, the value of the last part with that key, and has no more keys
      than there are parts. */
  lemma ParseHashSpec(hash: string, k: string)
    ensures |hash| == 0 ==> ParseHash(hash) == map[]
    ensures |hash| > 0 ==>
      var parts := Split(StripHash(hash), '&');
      && (k in ParseHash(hash) <==> k != "" && k != ProtoKey && LastValue(PairsOf(parts), k).Some?)
      && (k in ParseHash(hash) ==> ParseHash(hash)[k] == LastValue(PairsOf(parts), k).value)
      && |ParseHash(hash)| <= |parts|
  {
    if |hash| > 0 {
      var ps := PairsOf(Split(StripHash(hash), '&'));
      CollectSpec(ps, k);
      CollectSize(ps);
    }
  }

  /** Parts joined with `&` behind a `#` read back as a map from each key to
      the value it was last given. */
  lemma ParseJoinedPairs(parts: seq<string>, k: string)
    requires |parts| >= 1
    requires forall i :: 0 <= i < |parts| ==> '&' !in parts[i]
    requires |Join(parts, '&')| == 0 || Join(parts, '&')[0] != '#'
    ensures k in ParseHash("#" + Join(parts, '&')) <==>
      k != "" && k != ProtoKey && LastValue(PairsOf(parts), k).Some?
    ensures k in ParseHash("#" + Join(parts, '&')) ==>
      ParseHash("#" + Join(parts, '&'))[k] == LastValue(PairsOf(parts), k).value
  {
    var hash := "#" + Join(parts, '&');
    assert StripHash(hash) == Join(parts, '&');
    SplitJoin(parts, '&');
    CollectSpec(PairsOf(parts), k);
  }

  /** A part `k=v` reads back as key k and value v. */
  lemma PairRoundTrip(k: string, v: string)
    requires '=' !in k && '=' !in v
    ensures KeyOf(k + "=" + v) == k && ValueOf(k + "=" + v) == v
  {
    SplitAppend(k, v, '=');
    SplitNoSeparator(v, '=');
  }

  /** Only one leading `#` is stripped: a second one stays in the first key. */
  lemma DoubleHashKeepsSecond(k: string, v: string)
    requires '=' !in k && '=' !in v && '&' !in k && '&' !in v
    ensures ParseHash("##" + k + "=" + v) == map["#" + k := v]
  {
    var key := "#" + k;
    var part := key + "=" + v;
    assert "##" + k + "=" + v == "#" + part;
    assert StripHash("#" + part) == part by {
      assert ("#" + part)[1..] == part;
    }
    assert '&' !in part;
    SplitNoSeparator(part, '&');
    assert '=' !in key;
    PairRoundTrip(key, v);
    assert PairsOf([part]) == [Pair(key, v)];
    assert key != ProtoKey by {
      assert key[0] == '#' && ProtoKey[0] == '_';
    }
    CollectOne(Pair(key, v));
  }

  lemma CollectOne(a: Pair)
    requires a.key != "" && a.key != ProtoKey
    ensures Collect([a]) == map[a.key := a.value]
  {
    assert [a][..0] == [];
  }

  /** Of two parts with the same key, the later one's value is kept. */
  lemma LaterKeyWins(k: string, v1: string, v2: string)
    requires k != "" && k != ProtoKey && k[0] != '#'
    requires '=' !in k && '=' !in v1 && '=' !in v2
    requires '&' !in k && '&' !in v1 && '&' !in v2
    ensures ParseHash("#" + (k + "=" + v1) + "&" + (k + "=" + v2)) == map[k := v2]
  {
    var a, b := k + "=" + v1, k + "=" + v2;
    var body := a + "&" + b;
    assert ("#" + a + "&" + b)[1..] == body;
    SplitAppend(a, b, '&');
    SplitNoSeparator(b, '&');
    assert Split(body, '&') == [a, b];
    PairRoundTrip(k, v1);
    PairRoundTrip(k, v2);
    assert PairsOf([a, b]) == [Pair(k, v1), Pair(k, v2)];
    CollectTwo(Pair(k, v1), Pair(k, v2));
  }

  lemma CollectTwo(a: Pair, b: Pair)
    requires a.key == b.key && a.key != "" && a.key != ProtoKey
    ensures Collect([a, b]) == map[b.key := b.value]
  {
    assert [a, b][..1] == [a];
    CollectOne(a);
    assert Collect([a, b]) == Collect([a])[b.key := b.value];
  }
}
