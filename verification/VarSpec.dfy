/**
  NSH variables as a packed buffer: `name=value` strings one after the other, each with its
  terminator, and the map that such a buffer stands for.
*/
module VarSpec {
  import opened Escape

  datatype Var = Var(name: string, value: string)

  /** What a caller may use as a name; the comparison loop relies on it. */
  predicate GoodName(name: string) {
    '=' !in name && NUL !in name
  }

  predicate GoodVar(v: Var) {
    GoodName(v.name) && NUL !in v.value
  }

  predicate Good(vs: seq<Var>) {
    && (forall i :: 0 <= i < |vs| ==> GoodVar(vs[i]))
    && (forall i, j :: 0 <= i < j < |vs| ==> vs[i].name != vs[j].name)
  }

  /** One string with its terminator. */
  function Pair(v: Var): (s: string)
    ensures |s| == |v.name| + |v.value| + 2
  {
    v.name + ['='] + v.value + [NUL]
  }

  /** What the comparison loop looks for: the name and an equals sign in front. */
  predicate Belongs(name: string, v: Var) {
    name + ['='] <= Pair(v)
  }

  lemma BelongsToName(name: string, v: Var)
    requires GoodName(name) && GoodVar(v)
    ensures (Belongs(name, v) <==> name == v.name) && name + [NUL] != Pair(v)
  {
    var pair, sought, whole := Pair(v), name + ['='], name + [NUL];
    assert pair[|v.name|] == '=' && pair[..|v.name|] == v.name;
    assert sought[|name|] == '=' && sought[..|name|] == name && whole[..|name|] == name;
    assert |v.name| < |name| ==>
      sought[|v.name|] == name[|v.name|] == whole[|v.name|] && name[|v.name|] != '=';
    assert |name| < |v.name| ==> pair[|name|] == v.name[|name|] && v.name[|name|] != '=';
  }

  /** The loop tells the variables of a name from all others exactly if there is no equals sign in the name. */
  lemma BelongsExactly(name: string)
    requires NUL !in name
    ensures (forall v :: GoodVar(v) && name + [NUL] != Pair(v) ==> (Belongs(name, v) <==> name == v.name))
      <==> '=' !in name
  {
    if '=' !in name {
      forall v | GoodVar(v) ensures Belongs(name, v) <==> name == v.name {
        BelongsToName(name, v);
      }
    } else {
      var k := FirstEquals(name);
      var v := Var(name[..k], name[k + 1..] + ['=']);
      assert name == name[..k] + ['='] + name[k + 1..];
      assert Pair(v) == (name + ['=']) + [NUL];
      assert Belongs(name, v) && |name + [NUL]| < |Pair(v)| && GoodVar(v) && name != v.name;
    }
  }

  lemma FirstEquals(name: string) returns (k: nat)
    requires '=' in name
    ensures k < |name| && name[k] == '=' && '=' !in name[..k]
  {
    k := 0;
    while name[k] != '='
      invariant k < |name| && '=' !in name[..k] && '=' in name[k..]
      decreases |name| - k
    {
      assert name[k..] == [name[k]] + name[k + 1..] && name[..k + 1] == name[..k] + [name[k]];
      k := k + 1;
    }
  }

  lemma PairEnds(v: Var)
    ensures Pair(v) == Pair(v)[..|Pair(v)| - 1] + [NUL]
  {
  }

  function Packed(vs: seq<Var>): (s: string) {
    if vs == [] then [] else Pair(vs[0]) + Packed(vs[1..])
  }

  lemma {:induction false} PackedConcat(a: seq<Var>, b: seq<Var>)
    ensures Packed(a + b) == Packed(a) + Packed(b)
  {
    hide Pair;
    if a == [] {
      assert a + b == b;
    } else {
      hide *;
      PackedConcat(a[1..], b);
      assert (a + b)[0] == a[0] && (a + b)[1..] == a[1..] + b;
      PackedFirst(a + b);
      PackedFirst(a);
      Regroup(Pair(a[0]), Packed(a[1..]), Packed(b));
    }
  }

  lemma Regroup(x: string, y: string, z: string)
    ensures x + (y + z) == (x + y) + z
  {
  }

  lemma PackedFirst(vs: seq<Var>)
    requires vs != []
    ensures Packed(vs) == Pair(vs[0]) + Packed(vs[1..])
  {
  }

  /** The parts of a buffer around its `k`-th string. */
  lemma PackedSplit(vs: seq<Var>, k: nat)
    requires k < |vs|
    ensures Packed(vs) == Packed(vs[..k]) + Pair(vs[k]) + Packed(vs[k + 1..])
  {
    hide Packed; hide Pair;
    assert vs == vs[..k] + vs[k..] && vs[k..][1..] == vs[k + 1..];
    PackedConcat(vs[..k], vs[k..]);
    PackedFirst(vs[k..]);
  }

  /** Taking the bytes of one string out of a buffer takes out that variable. */
  lemma PackedRemove(vs: seq<Var>, k: nat)
    requires k < |vs|
    ensures
      var at, len := |Packed(vs[..k])|, |Pair(vs[k])|;
      at + len <= |Packed(vs)| && Packed(vs[..k] + vs[k + 1..]) == Packed(vs)[..at] + Packed(vs)[at + len..]
  {
    hide Packed; hide Pair;
    PackedSplit(vs, k);
    PackedConcat(vs[..k], vs[k + 1..]);
    var a, b, c := Packed(vs[..k]), Pair(vs[k]), Packed(vs[k + 1..]);
    assert (a + b + c)[..|a|] == a && (a + b + c)[|a| + |b|..] == c;
  }

  lemma PackedAppend(vs: seq<Var>, v: Var)
    ensures Packed(vs + [v]) == Packed(vs) + Pair(v)
  {
    PackedConcat(vs, [v]);
    assert Packed([v]) == Pair(v) + Packed([]) == Pair(v);
  }

  lemma PackedNone()
    ensures Packed([]) == []
  {
  }

  lemma PackedEmpty(vs: seq<Var>)
    requires |Packed(vs)| == 0
    ensures vs == []
  {
  }

  /** A buffer can be read back in one way only. */
  lemma {:induction false} PackedInjective(vs: seq<Var>, ws: seq<Var>)
    requires Good(vs) && Good(ws) && Packed(vs) == Packed(ws)
    ensures vs == ws
    decreases |vs|
  {
    if vs != [] && ws != [] {
      PairInjective(vs[0], ws[0], Packed(vs[1..]), Packed(ws[1..]));
      PackedInjective(vs[1..], ws[1..]);
      assert vs == [vs[0]] + vs[1..] && ws == [ws[0]] + ws[1..];
    }
  }

  lemma PairInjective(v: Var, u: Var, s: string, t: string)
    requires GoodVar(v) && GoodVar(u) && Pair(v) + s == Pair(u) + t
    ensures v == u && s == t
  {
    var all := Pair(v) + s;
    assert all[|v.name|] == '=' && all[|u.name|] == '=';
    assert forall i :: 0 <= i < |v.name| ==> all[i] == v.name[i];
    assert forall i :: 0 <= i < |u.name| ==> all[i] == u.name[i];
    assert |v.name| == |u.name|;
    assert all[..|v.name|] == v.name && all[..|u.name|] == u.name;
    var n := |v.name| + 1;
    assert forall i :: 0 <= i < |v.value| ==> all[n + i] == v.value[i];
    assert forall i :: 0 <= i < |u.value| ==> all[n + i] == u.value[i];
    assert all[n + |v.value|] == NUL && all[n + |u.value|] == NUL;
    assert |v.value| == |u.value|;
    assert all[n..n + |v.value|] == v.value && all[n..n + |u.value|] == u.value;
    assert all[|Pair(v)|..] == s && all[|Pair(u)|..] == t;
  }

  /** The map a list of variables stands for. */
  function AsMap(vs: seq<Var>): (m: map<string, string>) {
    if vs == [] then map[] else AsMap(vs[..|vs| - 1])[vs[|vs| - 1].name := vs[|vs| - 1].value]
  }

  lemma {:induction false} AsMapHas(vs: seq<Var>, name: string)
    requires Good(vs)
    ensures name in AsMap(vs) <==> exists k :: 0 <= k < |vs| && vs[k].name == name
    ensures forall k :: 0 <= k < |vs| && vs[k].name == name ==> name in AsMap(vs) && AsMap(vs)[name] == vs[k].value
  {
    if vs != [] {
      var n := |vs| - 1;
      AsMapHas(vs[..n], name);
      if vs[n].name != name {
        if name in AsMap(vs) {
          var k :| 0 <= k < |vs[..n]| && vs[..n][k].name == name;
          assert vs[k].name == name;
        }
        forall k | 0 <= k < |vs| && vs[k].name == name ensures name in AsMap(vs) && AsMap(vs)[name] == vs[k].value {
          assert vs[..n][k] == vs[k];
        }
      }
    }
  }

  lemma GoodRemove(vs: seq<Var>, k: nat)
    requires Good(vs) && k < |vs|
    ensures Good(vs[..k] + vs[k + 1..])
  {
    var ws := vs[..k] + vs[k + 1..];
    assert forall i :: 0 <= i < |ws| ==> ws[i] == vs[if i < k then i else i + 1];
  }

  lemma UpdateThenRemove(m: map<string, string>, a: string, v: string, k: string)
    ensures a != k ==> (m - {k})[a := v] == m[a := v] - {k}
    ensures k !in m ==> m[k := v] - {k} == m
  {
  }

  lemma {:induction false} AsMapRemove(vs: seq<Var>, k: nat)
    requires Good(vs) && k < |vs|
    ensures AsMap(vs[..k] + vs[k + 1..]) == AsMap(vs) - {vs[k].name}
    decreases |vs|
  {
    hide AsMap;
    var n := |vs| - 1;
    var init, last := vs[..n], vs[n];
    assert vs == init + [last];
    AsMapAppend(init, last);
    if k == n {
      assert vs[..k] + vs[k + 1..] == init;
      AsMapHas(init, last.name);
    } else {
      AsMapRemove(init, k);
      var ws := init[..k] + init[k + 1..];
      assert vs[..k] + vs[k + 1..] == ws + [last];
      AsMapAppend(ws, last);
    }
    UpdateThenRemove(AsMap(init), last.name, last.value, vs[k].name);
  }

  lemma AsMapAppend(vs: seq<Var>, v: Var)
    ensures AsMap(vs + [v]) == AsMap(vs)[v.name := v.value]
  {
    assert (vs + [v])[..|vs|] == vs;
  }

  /** A request to the store; `ok` says whether the allocation in it succeeds. */
  datatype Op = Set(name: string, value: string, ok: bool) | Unset(name: string, ok: bool)

  predicate GoodOp(op: Op) {
    GoodName(op.name) && (op.Set? ==> NUL !in op.value)
  }

  /** What a request does to the map: a set that finds no memory has already dropped the old value. */
  function MapStep(m: map<string, string>, op: Op): (m': map<string, string>) {
    match op
    case Set(name, value, ok) => if ok then m[name := value] else m - {name}
    case Unset(name, _) => m - {name}
  }

  function MapAfter(m: map<string, string>, ops: seq<Op>): (m': map<string, string>)
    decreases |ops|
  {
    if ops == [] then m else MapStep(MapAfter(m, ops[..|ops| - 1]), ops[|ops| - 1])
  }

  /** The last request that names the variable. */
  predicate LastFor(ops: seq<Op>, name: string, i: nat) {
    i < |ops| && ops[i].name == name && forall j :: i < j < |ops| ==> ops[j].name != name
  }

  /** Over a run of requests a variable has the last value set for it, if that request found memory. */
  lemma {:induction false} LastSetWins(m: map<string, string>, ops: seq<Op>, name: string, i: nat)
    requires LastFor(ops, name, i)
    ensures
      var after := MapAfter(m, ops);
      if ops[i].Set? && ops[i].ok then name in after && after[name] == ops[i].value else name !in after
    decreases |ops|
  {
    var n := |ops| - 1;
    if i < n {
      LastSetWins(m, ops[..n], name, i);
    }
  }

  /** Requests for other names leave a variable alone. */
  lemma {:induction false} OthersUntouched(m: map<string, string>, ops: seq<Op>, name: string)
    requires forall i :: 0 <= i < |ops| ==> ops[i].name != name
    ensures
      var after := MapAfter(m, ops);
      (name in after <==> name in m) && (name in m ==> after[name] == m[name])
    decreases |ops|
  {
    if ops != [] {
      OthersUntouched(m, ops[..|ops| - 1], name);
    }
  }
}
