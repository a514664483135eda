/** Resource addresses of a plan: rendered with instance keys in the values,
    without them in the configuration (terraform/plan.go). */
module Addresses {
  import opened Wrappers
  import opened Strings

  // ----- stripping the instance keys -----

  // What follows the first closing bracket.
  function AfterClose(s: string): (rest: string)
    requires ']' in s
    ensures |rest| < |s|
    ensures forall c <- rest :: c in s
  {
    if s[0] == ']' then s[1..] else AfterClose(s[1..])
  }

  // Replaces every match of \[[^\]]*\] by nothing, leftmost first.
  function Clean(s: string): (r: string)
    ensures forall c <- r :: c in s
    decreases |s|
  {
    if s == "" then ""
    else if s[0] == '[' && ']' in s then Clean(AfterClose(s))
    else [s[0]] + Clean(s[1..])
  }

  ghost predicate NoPair(s: string) {
    forall i, j | 0 <= i < j < |s| :: !(s[i] == '[' && s[j] == ']')
  }

  lemma {:induction false} CleanHasNoPair(s: string)
    ensures NoPair(Clean(s))
    decreases |s|
  {
    if s != "" {
      if s[0] == '[' && ']' in s {
        CleanHasNoPair(AfterClose(s));
      } else {
        CleanHasNoPair(s[1..]);
        var rest := Clean(s[1..]);
        forall j | 0 <= j < |rest| && s[0] == '[' ensures rest[j] != ']' {
          assert rest[j] in s[1..];
        }
      }
    }
  }

  lemma {:induction false} CleanFixes(s: string)
    requires NoPair(s)
    ensures Clean(s) == s
  {
    if s != "" {
      assert NoPair(s[1..]);
      CleanFixes(s[1..]);
    }
  }

  /** Cleaning twice is cleaning once, on every string. */
  lemma CleanIdempotent(s: string)
    ensures Clean(Clean(s)) == Clean(s)
  {
    CleanHasNoPair(s);
    CleanFixes(Clean(s));
  }

  // Every opening bracket is closed.
  predicate Closed(s: string) {
    s == "" || ((s[0] == '[' ==> ']' in s) && Closed(s[1..]))
  }

  lemma {:induction false} ClosedAfter(s: string)
    requires Closed(s) && ']' in s
    ensures Closed(AfterClose(s))
  {
    if s[0] != ']' {
      ClosedAfter(s[1..]);
    }
  }

  lemma {:induction false} AfterCloseConcat(s: string, t: string)
    requires ']' in s
    ensures AfterClose(s + t) == AfterClose(s) + t
  {
    if s[0] == ']' {
      assert (s + t)[1..] == s[1..] + t;
    } else {
      assert (s + t)[1..] == s[1..] + t;
      AfterCloseConcat(s[1..], t);
    }
  }

  lemma {:induction false} CleanConcat(s: string, t: string)
    requires Closed(s)
    ensures Clean(s + t) == Clean(s) + Clean(t)
    decreases |s|
  {
    if s == "" {
      assert s + t == t;
    } else if s[0] == '[' {
      AfterCloseConcat(s, t);
      ClosedAfter(s);
      CleanConcat(AfterClose(s), t);
    } else {
      assert (s + t)[1..] == s[1..] + t;
      CleanConcat(s[1..], t);
    }
  }

  lemma {:induction false} CleanPlain(s: string)
    requires '[' !in s
    ensures Closed(s) && Clean(s) == s
  {
    if s != "" {
      CleanPlain(s[1..]);
    }
  }

  // ----- one instance key -----

  function Bracketed(key: string): string {
    "[" + key + "]"
  }

  // Every closing bracket inside the key is followed by an opening one.
  ghost predicate Reopens(key: string) {
    forall i | 0 <= i < |key| && key[i] == ']' :: i + 1 < |key| && key[i + 1] == '['
  }

  lemma {:induction false} ClosedEnd(s: string)
    ensures Closed(s + "]")
  {
    if s != "" {
      assert (s + "]")[1..] == s[1..] + "]";
      ClosedEnd(s[1..]);
      assert (s + "]")[|s|] == ']';
    } else {
      assert ("" + "]")[1..] == "";
    }
  }

  function Close(key: string): (i: nat)
    requires ']' in key
    ensures i < |key| && key[i] == ']' && ']' !in key[..i]
  {
    if key[0] == ']' then 0 else
      var i := Close(key[1..]);
      assert key[..1 + i] == [key[0]] + key[1..][..i];
      1 + i
  }

  lemma {:induction false} AfterFirst(before: string, after: string)
    requires ']' !in before
    ensures ']' in before + "]" + after && AfterClose(before + "]" + after) == after
  {
    var s := before + "]" + after;
    assert s[|before|] == ']';
    if before != "" {
      assert s[1..] == before[1..] + "]" + after;
      AfterFirst(before[1..], after);
    } else {
      assert s[1..] == after;
    }
  }

  lemma BracketedSplit(key: string)
    requires ']' in key
    ensures var i := Close(key); Clean(Bracketed(key)) == Clean(key[i + 1..] + "]")
  {
    var i := Close(key);
    var before := "[" + key[..i];
    assert key == key[..i] + "]" + key[i + 1..];
    BracketedPieces(key[..i], key[i + 1..]);
    AfterFirst(before, key[i + 1..] + "]");
  }

  lemma BracketedPieces(x: string, y: string)
    ensures Bracketed(x + "]" + y) == "[" + x + "]" + (y + "]")
  {
  }

  /** A rendered instance key disappears exactly when every closing bracket in it
      is followed by an opening one; in particular when it has none. */
  lemma {:induction false} KeyVanishesExactly(key: string)
    ensures Clean(Bracketed(key)) == "" <==> Reopens(key)
    decreases |key|
  {
    if ']' !in key {
      var before := "[" + key;
      assert Bracketed(key) == before + "]" + "";
      AfterFirst(before, "");
    } else {
      var i := Close(key);
      BracketedSplit(key);
      var rest := key[i + 1..];
      if rest != "" && rest[0] == '[' {
        var inner := rest[1..];
        assert rest + "]" == Bracketed(inner);
        KeyVanishesExactly(inner);
        ReopensTail(key, i);
      } else {
        assert rest + "]" != "" && (rest + "]")[0] != '[';
        assert key[i] == ']' && (i + 1 < |key| ==> key[i + 1] == rest[0]);
      }
    }
  }

  lemma ReopensTail(key: string, i: nat)
    requires i + 1 < |key| && key[i] == ']' && key[i + 1] == '[' && ']' !in key[..i]
    ensures Reopens(key) <==> Reopens(key[i + 2..])
  {
    var inner := key[i + 2..];
    assert forall j | 0 <= j < |inner| :: inner[j] == key[i + 2 + j];
    assert forall j | 0 <= j < i :: key[..i][j] == key[j];
    if Reopens(inner) {
      forall j | 0 <= j < |key| && key[j] == ']' ensures j + 1 < |key| && key[j + 1] == '[' {
        if j > i + 1 {
          assert inner[j - i - 2] == ']';
        }
      }
    }
    if Reopens(key) {
      forall j | 0 <= j < |inner| && inner[j] == ']' ensures j + 1 < |inner| && inner[j + 1] == '[' {
        assert key[i + 2 + j] == ']';
      }
    }
  }

  // ----- rendered addresses -----

  // A module call on the way to a resource, with its count or for_each key.
  datatype Call = Call(Name: string, Key: Option<string>)

  function Index(key: Option<string>): string {
    if key.None? then "" else Bracketed(key.value)
  }

  // As in the planned values: module.a[0].module.b["k"].type.name[1].
  function Rendered(path: seq<Call>, address: string, key: Option<string>): string {
    if path == [] then address + Index(key)
    else "module." + path[0].Name + Index(path[0].Key) + "." + Rendered(path[1..], address, key)
  }

  // The key the configuration walk builds for a resource: its prefix starts with
  // the first module name and grows by ".module." and the next one.
  function Prefix(names: seq<string>): string {
    if names == [] then ""
    else if |names| == 1 then names[0]
    else Prefix(names[..|names| - 1]) + ".module." + names[|names| - 1]
  }

  function ConfigKey(names: seq<string>, address: string): string {
    var prefix := Prefix(names);
    if prefix != "" then "module." + prefix + "." + address else address
  }

  function Names(path: seq<Call>): (names: seq<string>)
    ensures |names| == |path|
    ensures forall i | 0 <= i < |path| :: names[i] == path[i].Name
  {
    if path == [] then [] else [path[0].Name] + Names(path[1..])
  }

  function PlainKey(names: seq<string>, address: string): string {
    if names == [] then address else "module." + names[0] + "." + PlainKey(names[1..], address)
  }

  lemma {:induction false} PrefixFront(names: seq<string>, n: string)
    requires names != []
    ensures Prefix([n] + names) == n + ".module." + Prefix(names)
  {
    if |names| == 1 {
      assert ([n] + names)[..1] == [n];
    } else {
      var front, last := names[..|names| - 1], names[|names| - 1];
      assert ([n] + names)[..|names|] == [n] + front && ([n] + names)[|names|] == last;
      PrefixFront(front, n);
      Reassociate(n + ".module.", Prefix(front), ".module." + last);
      Reassociate(Prefix(front), ".module.", last);
      Reassociate(n + ".module." + Prefix(front), ".module.", last);
    }
  }

  lemma Regroup(n: string, p: string, address: string)
    ensures "module." + (n + ".module." + p) + "." + address == "module." + n + "." + ("module." + p + "." + address)
  {
    assert ".module." == "." + "module.";
  }

  lemma {:induction false} ConfigKeyIsPlain(names: seq<string>, address: string)
    requires forall n <- names :: n != ""
    ensures names != [] ==> Prefix(names) != ""
    ensures ConfigKey(names, address) == PlainKey(names, address)
  {
    if |names| == 1 {
      assert names[0] in names && names[1..] == [];
    } else if names != [] {
      var rest := names[1..];
      assert names == [names[0]] + rest;
      assert forall n <- rest :: n in names;
      ConfigKeyIsPlain(rest, address);
      PrefixFront(rest, names[0]);
      Regroup(names[0], Prefix(rest), address);
    }
  }

  predicate Plain(s: string) {
    '[' !in s
  }

  ghost predicate PlainPath(path: seq<Call>) {
    forall c <- path :: Plain(c.Name) && c.Name != ""
  }

  ghost predicate KeyReopens(key: Option<string>) {
    key.None? || Reopens(key.value)
  }

  // What is left of the instance keys.
  function Residue(path: seq<Call>, key: Option<string>): nat {
    if path == [] then |Clean(Index(key))| else |Clean(Index(path[0].Key))| + Residue(path[1..], key)
  }

  lemma IndexClosed(key: Option<string>)
    ensures Closed(Index(key))
    ensures |Clean(Index(key))| == 0 <==> KeyReopens(key)
  {
    if key.Some? {
      ClosedEnd("[" + key.value);
      KeyVanishesExactly(key.value);
    }
  }

  lemma CleanPiece(plain: string, key: Option<string>, rest: string)
    requires Plain(plain)
    ensures Clean(plain + Index(key) + rest) == plain + Clean(Index(key)) + Clean(rest)
  {
    CleanPlain(plain);
    IndexClosed(key);
    Reassociate(plain, Index(key), rest);
    CleanConcat(plain, Index(key) + rest);
    CleanConcat(Index(key), rest);
    Reassociate(plain, Clean(Index(key)), Clean(rest));
  }

  lemma CleanHead(name: string, key: Option<string>, rest: string)
    requires Plain(name)
    ensures Clean("module." + name + Index(key) + "." + rest) == "module." + name + Clean(Index(key)) + "." + Clean(rest)
  {
    var head := "module." + name;
    Reassociate(head + Index(key), ".", rest);
    CleanPiece(head, key, "." + rest);
    CleanPlain(".");
    CleanConcat(".", rest);
    Reassociate(head + Clean(Index(key)), ".", Clean(rest));
  }

  lemma Lengthen(head: string, left: string, rest: string, plain: string, residue: nat)
    requires |rest| == |plain| + residue && (residue == 0 ==> rest == plain)
    ensures |head + left + "." + rest| == |head + "." + plain| + (|left| + residue)
    ensures |left| + residue == 0 ==> head + left + "." + rest == head + "." + plain
  {
    if left == "" {
      assert head + left == head;
    }
  }

  lemma {:induction false} CleanRendered(path: seq<Call>, address: string, key: Option<string>)
    requires PlainPath(path) && Plain(address)
    ensures |Clean(Rendered(path, address, key))| == |PlainKey(Names(path), address)| + Residue(path, key)
    ensures Residue(path, key) == 0 ==> Clean(Rendered(path, address, key)) == PlainKey(Names(path), address)
  {
    if path == [] {
      CleanPiece(address, key, "");
      assert address + Index(key) + "" == address + Index(key);
    } else {
      assert path[0] in path && forall c <- path[1..] :: c in path;
      CleanRendered(path[1..], address, key);
      CleanHead(path[0].Name, path[0].Key, Rendered(path[1..], address, key));
      assert Names(path)[1..] == Names(path[1..]);
      Lengthen("module." + path[0].Name, Clean(Index(path[0].Key)), Clean(Rendered(path[1..], address, key)),
               PlainKey(Names(path[1..]), address), Residue(path[1..], key));
    }
  }

  lemma {:induction false} ResidueZero(path: seq<Call>, key: Option<string>)
    ensures Residue(path, key) == 0 <==> KeyReopens(key) && forall c <- path :: KeyReopens(c.Key)
  {
    if path == [] {
      IndexClosed(key);
    } else {
      IndexClosed(path[0].Key);
      ResidueZero(path[1..], key);
      assert path == [path[0]] + path[1..];
    }
  }

  /** At every depth, cleaning a rendered address gives the configuration key of
      its resource exactly when every closing bracket inside an instance key is
      followed by an opening one. */
  lemma CleanGivesConfigKey(path: seq<Call>, address: string, key: Option<string>)
    requires PlainPath(path) && Plain(address)
    ensures Clean(Rendered(path, address, key)) == ConfigKey(Names(path), address)
            <==> KeyReopens(key) && forall c <- path :: KeyReopens(c.Key)
  {
    CleanRendered(path, address, key);
    ResidueZero(path, key);
    forall n | n in Names(path) ensures n != "" {
      var i :| 0 <= i < |path| && Names(path)[i] == n;
      assert path[i] in path;
    }
    ConfigKeyIsPlain(Names(path), address);
  }

  /** Keys free of closing brackets, as counts always are, are cleaned at every depth. */
  lemma PlainKeysClean(path: seq<Call>, address: string, key: Option<string>)
    requires PlainPath(path) && Plain(address)
    requires key.Some? ==> ']' !in key.value
    requires forall c <- path | c.Key.Some? :: ']' !in c.Key.value
    ensures Clean(Rendered(path, address, key)) == ConfigKey(Names(path), address)
  {
    CleanGivesConfigKey(path, address, key);
    if key.Some? {
      assert forall i | 0 <= i < |key.value| :: key.value[i] in key.value;
    }
    forall c | c in path ensures KeyReopens(c.Key) {
      if c.Key.Some? {
        assert forall i | 0 <= i < |c.Key.value| :: c.Key.value[i] in c.Key.value;
      }
    }
  }

  // A key may end early: then the rest of it is kept.
  lemma KeyLeaves(x: string, y: string)
    requires ']' !in x && Plain(y)
    ensures Clean(Bracketed(x + "]" + y + "[")) == y
  {
    assert Bracketed(x + "]" + y + "[") == "[" + x + "]" + (y + "[]");
    AfterFirst("[" + x, y + "[]");
    CleanPlain(y);
    CleanConcat(y, "[]");
    AfterFirst("[", "");
    assert "[" + "]" + "" == "[]" && y + "" == y;
  }

  lemma CleanCall(name: string, key: Option<string>, address: string)
    requires Plain(name) && Plain(address)
    ensures Clean(Rendered([Call(name, key)], address, None)) == "module." + name + Clean(Index(key)) + "." + address
  {
    CleanHead(name, key, address);
    CleanPlain(address);
    assert [Call(name, key)][1..] == [] && address + "" == address;
  }

  lemma ConfigKeyOfTwo(m: string, n: string, address: string)
    requires m != ""
    ensures ConfigKey([m, n], address) == "module." + m + (".module." + n) + "." + address
  {
    assert [m, n][..1] == [m];
    assert Prefix([m, n]) == m + ".module." + n;
    assert "module." + (m + ".module." + n) == "module." + m + (".module." + n);
  }

  // A key that closes early and goes on with a call of n.
  function Misleading(n: string, x: string): string {
    x + "]" + (".module." + n) + "["
  }

  /** Such a key can spell another module call: what is left of the address is the
      configuration key of the module below. */
  lemma MisleadingKey(m: string, n: string, x: string, address: string)
    requires Plain(m) && Plain(n) && ']' !in x && Plain(address) && m != ""
    ensures Clean(Rendered([Call(m, Some(Misleading(n, x)))], address, None)) == ConfigKey([m, n], address)
    ensures ConfigKey([m, n], address) != ConfigKey([m], address)
  {
    KeyLeaves(x, ".module." + n);
    CleanCall(m, Some(Misleading(n, x)), address);
    ConfigKeyOfTwo(m, n, address);
    assert |ConfigKey([m], address)| == |"module." + m + "." + address|;
  }

  // ----- different resources have different keys -----

  // type.name, or data.type.name.
  datatype Address = Managed(Type: string, Name: string) | Data(Type: string, Name: string) {
    function Parts(): seq<string> {
      if Managed? then [Type, Name] else ["data", Type, Name]
    }

    function Text(): string {
      Join(Parts(), '.')
    }
  }

  function Segments(names: seq<string>, address: Address): seq<string> {
    if names == [] then address.Parts() else ["module", names[0]] + Segments(names[1..], address)
  }

  lemma {:induction false} SegmentsLength(names: seq<string>, address: Address)
    ensures |Segments(names, address)| == 2 * |names| + |address.Parts()|
  {
    if names != [] {
      SegmentsLength(names[1..], address);
    }
  }

  lemma {:induction false} SegmentsInjective(a: seq<string>, x: Address, b: seq<string>, y: Address)
    requires Segments(a, x) == Segments(b, y)
    ensures a == b && x == y
  {
    SegmentsLength(a, x);
    SegmentsLength(b, y);
    if a == [] {
      assert b == [];
      assert x.Parts()[0] == y.Parts()[0] && x.Parts()[1] == y.Parts()[1];
    } else {
      assert Segments(a, x)[..2] == ["module", a[0]] && Segments(b, y)[..2] == ["module", b[0]];
      assert ["module", a[0]][1] == ["module", b[0]][1];
      assert Segments(a, x)[2..] == Segments(a[1..], x) && Segments(b, y)[2..] == Segments(b[1..], y);
      SegmentsInjective(a[1..], x, b[1..], y);
      assert a == [a[0]] + a[1..] && b == [b[0]] + b[1..];
    }
  }

  lemma {:induction false} KeyIsJoin(names: seq<string>, address: Address)
    ensures PlainKey(names, address.Text()) == Join(Segments(names, address), '.')
  {
    if names != [] {
      KeyIsJoin(names[1..], address);
      var rest := Segments(names[1..], address);
      SegmentsLength(names[1..], address);
      var all := ["module", names[0]] + rest;
      assert all[1..] == [names[0]] + rest && ([names[0]] + rest)[1..] == rest;
      assert "module." == "module" + ['.'] && "." == ['.'];
      assert Join([names[0]] + rest, '.') == names[0] + ['.'] + Join(rest, '.');
    }
  }

  ghost predicate DotFreePath(names: seq<string>, address: Address) {
    && (forall n <- names :: n != "" && '.' !in n)
    && '.' !in address.Type && '.' !in address.Name
  }

  lemma {:induction false} SegmentsDotFree(names: seq<string>, address: Address)
    requires DotFreePath(names, address)
    ensures forall s <- Segments(names, address) :: '.' !in s
  {
    if names != [] {
      assert names[0] in names && forall n <- names[1..] :: n in names;
      SegmentsDotFree(names[1..], address);
    }
  }

  /** Resources configured at different places, or under different names, never
      share a configuration key. */
  lemma ConfigKeyInjective(a: seq<string>, x: Address, b: seq<string>, y: Address)
    requires DotFreePath(a, x) && DotFreePath(b, y)
    ensures ConfigKey(a, x.Text()) == ConfigKey(b, y.Text()) <==> a == b && x == y
  {
    ConfigKeyIsPlain(a, x.Text());
    ConfigKeyIsPlain(b, y.Text());
    KeyIsJoin(a, x);
    KeyIsJoin(b, y);
    SegmentsDotFree(a, x);
    SegmentsDotFree(b, y);
    SegmentsLength(a, x);
    SegmentsLength(b, y);
    JoinInjective(Segments(a, x), Segments(b, y), '.');
    if Segments(a, x) == Segments(b, y) {
      SegmentsInjective(a, x, b, y);
    }
  }
}
