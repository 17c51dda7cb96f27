/**
  The NSH variable store, `nsh_vars.c`: a buffer that is searched string by string, shifted
  down byte by byte and grown by reallocation.
*/
module VarStore {
  import opened Escape
  import opened VarSpec

  datatype Option<T> = None | Some(value: T)

  /** The character of a C string, terminator included. */
  function CharAt(s: string, i: nat): char
    requires i <= |s|
  {
    if i < |s| then s[i] else NUL
  }

  /**
    `nsh_cmpname`: does the string at `at`, which is the pair of `v`, belong to `name`?  The loop
    ends within the two strings unless the name is the whole of the other.
  */
  method CmpName(name: string, p: array<char>, at: nat, ghost v: Var) returns (same: bool)
    requires NUL !in name && GoodVar(v) && name + [NUL] != Pair(v)
    requires at + |Pair(v)| <= p.Length && p[at..at + |Pair(v)|] == Pair(v)
    ensures same <==> Belongs(name, v)
  {
    ghost var pair := Pair(v);
    NulAtEnd(v);
    assert forall j :: 0 <= j < |pair| ==> p[at + j] == pair[j];
    var i := 0;
    while CharAt(name, i) == p[at + i]
      invariant i <= |name| && i < |pair| && name[..i] == pair[..i]
      decreases |name| - i
    {
      StaysWithin(name, v, i);
      i := i + 1;
    }
    same := i == |name| && p[at + i] == '=';
    BelongsAt(name, v, i);
  }

  lemma NulAtEnd(v: Var)
    requires GoodVar(v)
    ensures forall j :: 0 <= j < |Pair(v)| ==> (Pair(v)[j] == NUL <==> j == |Pair(v)| - 1)
  {
  }

  lemma BelongsAt(name: string, v: Var, i: nat)
    requires i <= |name| && i < |Pair(v)| && name[..i] == Pair(v)[..i] && CharAt(name, i) != Pair(v)[i]
    ensures Belongs(name, v) <==> i == |name| && Pair(v)[i] == '='
  {
    var pair, sought := Pair(v), name + ['='];
    assert i < |name| ==> sought[i] == name[i];
    assert i == |name| ==> sought[..i] == pair[..i] && sought[i] == '=';
  }

  lemma StaysWithin(name: string, v: Var, i: nat)
    requires NUL !in name && GoodVar(v) && name + [NUL] != Pair(v)
    requires i <= |name| && i < |Pair(v)| && name[..i] == Pair(v)[..i] && CharAt(name, i) == Pair(v)[i]
    ensures i < |name| && i + 1 < |Pair(v)| && name[..i + 1] == Pair(v)[..i + 1]
  {
    NulAtEnd(v);
    PairEnds(v);
    assert name[..|name|] == name;
  }

  /** `strlen` of a pair, plus its terminator. */
  method PairLength(p: array<char>, at: nat, ghost v: Var) returns (n: nat)
    requires GoodVar(v) && at + |Pair(v)| <= p.Length && p[at..at + |Pair(v)|] == Pair(v)
    ensures n == |Pair(v)|
  {
    ghost var pair := Pair(v);
    assert forall j :: 0 <= j < |pair| ==> p[at + j] == pair[j];
    n := 0;
    while p[at + n] != NUL
      invariant n < |pair|
      decreases |pair| - n
    {
      n := n + 1;
    }
    n := n + 1;
  }

  /** The value part of a pair: behind the first `=`. */
  method ReadValue(p: array<char>, at: nat, ghost v: Var) returns (value: string)
    requires GoodVar(v) && at + |Pair(v)| <= p.Length && p[at..at + |Pair(v)|] == Pair(v)
    ensures value == v.value
  {
    var n := PairLength(p, at, v);
    ghost var pair := Pair(v);
    assert forall j :: 0 <= j < |pair| ==> p[at + j] == pair[j];
    assert forall j :: 0 <= j < |v.name| ==> pair[j] == v.name[j];
    assert pair[|v.name|] == '=';
    var i := 0;
    while p[at + i] != '='
      invariant i <= |v.name|
      decreases |v.name| - i
    {
      i := i + 1;
    }
    value := p[at + i + 1..at + n - 1];
    assert value == pair[|v.name| + 1..|pair| - 1];
  }

  /** `realloc` that succeeds: a block of `n` bytes that begins with the first `keep` bytes of the old one. */
  method Realloc(old_: array<char>, keep: nat, n: nat) returns (a: array<char>)
    requires keep <= old_.Length && keep <= n
    ensures fresh(a) && a.Length == n && a[..keep] == old_[..keep]
  {
    a := new char[n](i requires 0 <= i < n reads old_ => if i < keep then old_[i] else NUL);
  }

  /** `sprintf(pair, "%s=%s", name, value)` at the end of the used part. */
  method WritePair(a: array<char>, at: nat, v: Var)
    requires at + |Pair(v)| == a.Length
    modifies a
    ensures a[..at] == old(a[..at]) && a[at..] == Pair(v)
  {
    var pair := Pair(v);
    forall i | 0 <= i < |pair| {
      a[at + i] := pair[i];
    }
  }

  /** The loop that moves `count` bytes down from `src` to `dest`. */
  method MoveDown(a: array<char>, dest: nat, src: nat, count: nat)
    requires dest <= src && src + count <= a.Length
    modifies a
    ensures a[..dest] == old(a[..dest]) && a[dest..dest + count] == old(a[src..src + count])
  {
    var i := 0;
    while i < count
      invariant i <= count
      invariant forall j :: 0 <= j < dest ==> a[j] == old(a[j])
      invariant forall j :: dest <= j < dest + i ==> a[j] == old(a[j + src - dest])
      invariant forall j :: src + i <= j < a.Length ==> a[j] == old(a[j])
    {
      a[dest + i] := a[src + i];
      i := i + 1;
    }
  }

  /** The body of `nsh_removevar`: `len` bytes at `at` are closed up. */
  method CutOut(p: array<char>, at: nat, len: nat, size: nat)
    requires at + len <= size <= p.Length
    modifies p
    ensures p[..size - len] == old(p[..at]) + old(p[at + len..size])
  {
    MoveDown(p, at, at + len, size - (at + len));
    assert p[..size - len] == p[..at] + p[at..size - len];
  }

  /** A pair as a string, without its terminator. */
  method ReadPair(p: array<char>, at: nat, ghost v: Var) returns (text: string)
    requires GoodVar(v) && at + |Pair(v)| <= p.Length && p[at..at + |Pair(v)|] == Pair(v)
    ensures text + [NUL] == Pair(v)
  {
    hide Pair;
    var n := PairLength(p, at, v);
    PairEnds(v);
    text := p[at..at + n - 1];
    assert text == p[at..at + n][..n - 1];
  }

  class Store {
    var varp: array?<char>
    var varsz: nat

    /** The variables in the buffer, in order. */
    ghost var vars: seq<Var>

    ghost predicate Valid()
      reads this, varp
    {
      && Good(vars)
      && (varp == null ==> varsz == 0 && vars == [])
      && (varp != null ==> varsz <= varp.Length && varp[..varsz] == Packed(vars))
    }

    ghost function View(): map<string, string>
      reads this
    {
      AsMap(vars)
    }

    constructor ()
      ensures Valid() && View() == map[] && varp == null
    {
      varp, varsz, vars := null, 0, [];
    }

    lemma At(k: nat)
      requires Valid() && k < |vars|
      ensures varp != null
      ensures
        var at := |Packed(vars[..k])|;
        at + |Pair(vars[k])| <= varsz && varp[at..at + |Pair(vars[k])|] == Pair(vars[k])
      ensures |Packed(vars[..k + 1])| == |Packed(vars[..k])| + |Pair(vars[k])| && GoodVar(vars[k])
    {
      PackedSplit(vars, k);
      PackedAppend(vars[..k], vars[k]);
      assert vars[..k + 1] == vars[..k] + [vars[k]];
      var at, n := |Packed(vars[..k])|, |Pair(vars[k])|;
      assert varp[at..at + n] == varp[..varsz][at..at + n] == Packed(vars)[at..at + n];
    }

    /** `nsh_findvar`: the offset of the pair of that name. */
    method FindVar(name: string) returns (found: bool, at: nat, ghost k: nat)
      requires Valid() && GoodName(name)
      ensures if found then k < |vars| && vars[k].name == name && at == |Packed(vars[..k])| && varp != null
              else forall j :: 0 <= j < |vars| ==> vars[j].name != name
      ensures found <==> name in View()
    {
      hide Packed; hide AsMap; hide Pair; hide Good; hide GoodVar;
      AsMapHas(vars, name);
      PackedNone();
      assert vars[..0] == [];
      at, k, found := 0, 0, false;
      while at < varsz
        invariant k <= |vars| && at == |Packed(vars[..k])|
        invariant forall j :: 0 <= j < k ==> vars[j].name != name
        decreases |vars| - k
      {
        assert k < |vars| by { assert vars[..|vars|] == vars; }
        At(k);
        BelongsToName(name, vars[k]);
        var same := CmpName(name, varp, at, vars[k]);
        if same {
          found := true;
          return;
        }
        var n := PairLength(varp, at, vars[k]);
        at := at + n;
        k := k + 1;
      }
      if k < |vars| {
        At(k);
      }
    }

    /** `nsh_removevar`. */
    method RemoveVar(at: nat, ghost k: nat)
      requires Valid() && varp != null && k < |vars| && at == |Packed(vars[..k])|
      modifies this`varsz, this`vars, varp
      ensures Valid() && varp == old(varp) && varsz < old(varsz)
      ensures vars == old(vars[..k] + vars[k + 1..])
      ensures View() == old(View()) - {old(vars[k].name)}
    {
      hide Packed; hide AsMap; hide Pair; hide Good; hide GoodVar;
      At(k);
      var len := PairLength(varp, at, vars[k]);
      ghost var before, vs := varp[..varsz], vars;
      PackedRemove(vs, k);
      GoodRemove(vs, k);
      AsMapRemove(vs, k);
      assert varp[at + len..varsz] == before[at + len..] && varp[..at] == before[..at];
      CutOut(varp, at, len, varsz);
      varsz := varsz - len;
      vars := vs[..k] + vs[k + 1..];
    }

    /** `nsh_getvar`. */
    method GetVar(name: string) returns (r: Option<string>)
      requires Valid() && GoodName(name)
      ensures r == if name in View() then Some(View()[name]) else None
    {
      var found, at, k := FindVar(name);
      if !found {
        return None;
      }
      hide Packed; hide AsMap; hide Pair;
      At(k);
      AsMapHas(vars, name);
      var value := ReadValue(varp, at, vars[k]);
      return Some(value);
    }

    /** `nsh_setvar`; `allocates` says whether memory is found. */
    method SetVar(name: string, value: string, allocates: bool) returns (ok: bool)
      requires Valid() && GoodOp(Set(name, value, allocates))
      modifies this, varp
      ensures Valid() && (varp == old(varp) || fresh(varp))
      ensures ok == allocates && View() == MapStep(old(View()), Set(name, value, allocates))
    {
      hide Packed; hide AsMap; hide Pair;
      AsMapHas(vars, name);
      if varp != null {
        var found, at, k := FindVar(name);
        if found {
          RemoveVar(at, k);
        }
      }
      assert View() == old(View()) - {name};
      if !allocates {
        return false;
      }
      Append(Var(name, value));
      return true;
    }

    /** A new pair at the end of a buffer that has been grown for it. */
    method Append(v: Var)
      requires Valid() && GoodVar(v) && v.name !in View()
      modifies this
      ensures Valid() && varp != null && fresh(varp) && View() == old(View())[v.name := v.value]
    {
      hide Packed; hide AsMap; hide Pair;
      AsMapHas(vars, v.name);
      var varlen := |v.name| + |v.value| + 2;
      var newvarp: array<char>;
      if varp != null {
        newvarp := Realloc(varp, varsz, varsz + varlen);
      } else {
        PackedNone();
        newvarp := new char[varlen];
      }
      assert newvarp[..varsz] == Packed(vars);
      WritePair(newvarp, varsz, v);
      PackedAppend(vars, v);
      AsMapAppend(vars, v);
      varp := newvarp;
      assert varp[..varsz + varlen] == varp[..varsz] + varp[varsz..];
      varsz := varsz + varlen;
      vars := vars + [v];
    }

    /** `nsh_unsetvar`; a failing `realloc` is reported although the variable is gone. */
    method UnsetVar(name: string, reallocates: bool) returns (ok: bool)
      requires Valid() && GoodName(name)
      modifies this, varp
      ensures Valid() && (varp == null || varp == old(varp) || fresh(varp))
      ensures View() == old(View()) - {name}
      ensures ok <==> reallocates || name !in old(View()) || vars == []
    {
      ok := true;
      AsMapHas(vars, name);
      var found, at, k := FindVar(name);
      if found {
        RemoveVar(at, k);
        if varsz <= 0 {
          PackedEmpty(vars);
          varp, varsz := null, 0;
        } else if reallocates {
          varp := Realloc(varp, varsz, varsz);
        } else {
          ok := false;
        }
      }
    }

    /** `nsh_foreach_var`: the pairs shown to a callback that asks to stop at the first pair in `stops`. */
    method ForEach(stops: set<string>) returns (visited: seq<string>, stopped: bool)
      requires Valid()
      ensures |visited| <= |vars| && (!stopped ==> |visited| == |vars|)
      ensures forall i :: 0 <= i < |visited| ==> visited[i] + [NUL] == Pair(vars[i])
      ensures forall i :: 0 <= i < |visited| ==> (visited[i] in stops <==> stopped && i == |visited| - 1)
      ensures stopped ==> visited != []
    {
      hide Pair; hide Packed;
      visited, stopped := [], false;
      PackedNone();
      assert vars[..0] == [];
      var at := 0;
      while at < varsz
        invariant |visited| <= |vars| && at == |Packed(vars[..|visited|])|
        invariant forall i :: 0 <= i < |visited| ==> visited[i] + [NUL] == Pair(vars[i]) && visited[i] !in stops
        decreases |vars| - |visited|
      {
        ghost var k := |visited|;
        assert k < |vars| by { assert vars[..|vars|] == vars; }
        At(k);
        var text := ReadPair(varp, at, vars[k]);
        visited := visited + [text];
        if text in stops {
          stopped := true;
          return;
        }
        at := at + |text| + 1;
      }
      if |visited| < |vars| {
        At(|visited|);
      }
    }

    /** Any run of requests: the store behaves as the map does. */
    method Run(ops: seq<Op>)
      requires Valid() && forall i :: 0 <= i < |ops| ==> GoodOp(ops[i])
      modifies this, varp
      ensures Valid() && View() == MapAfter(old(View()), ops)
    {
      for i := 0 to |ops|
        invariant Valid() && (varp == null || varp == old(varp) || fresh(varp))
        invariant View() == MapAfter(old(View()), ops[..i])
      {
        assert ops[..i + 1][..i] == ops[..i];
        match ops[i]
        case Set(name, value, ok) =>
          var _ := SetVar(name, value, ok);
        case Unset(name, ok) =>
          var _ := UnsetVar(name, ok);
      }
      assert ops[..|ops|] == ops;
    }
  }
}
