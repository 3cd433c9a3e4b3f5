/**
 The names of the proxies in the Mihomo document: each one is taken once, however often a remark occurs.

 The proxy entry of a config is the parameter `convert`; `str.strip` is a parameter too.
 */
module ClashNames {
  import opened Configs
  import opened Decimals
  import opened Options
  import opened Sequences

  // ---- the names a config may get ----

  function Spaced(s: string): (r: string)
    ensures |r| == |s|
    ensures forall i :: 0 <= i < |s| ==> r[i] == if s[i] in {'\r', '\n'} then ' ' else s[i]
  {
    seq(|s|, i requires 0 <= i < |s| => if s[i] in {'\r', '\n'} then ' ' else s[i])
  }

  /** The stripped remark, or the address and the port; on one line. */
  function Base(strip: string -> string, c: Config): string {
    var remark := strip(c.remark);
    Spaced(if remark != "" then remark else c.address + ":" + c.port)
  }

  /** A remark on one line is the base as it is; without one it is the address and the port. */
  lemma BaseIs(strip: string -> string, c: Config)
    ensures var name := if strip(c.remark) != "" then strip(c.remark) else c.address + ":" + c.port;
            && |Base(strip, c)| == |name|
            && ('\r' !in name && '\n' !in name ==> Base(strip, c) == name)
            && forall i :: 0 <= i < |name| && name[i] in {'\r', '\n'} ==> Base(strip, c)[i] == ' '
  {
    var name := if strip(c.remark) != "" then strip(c.remark) else c.address + ":" + c.port;
    assert forall i :: 0 <= i < |name| ==> name[i] in name;
  }

  /** The n-th name for a base: the base itself, base #2, base #3, and so on. */
  function Numbered(name: string, n: nat): string {
    if n < 2 then name else name + " #" + Decimal(n)
  }

  lemma NumberedExamples()
    ensures Numbered("DE", 1) == "DE" && Numbered("DE", 2) == "DE #2" && Numbered("DE", 10) == "DE #10"
  {
    assert Decimal(2) == "2" && Decimal(1) == "1" && Decimal(0) == "0";
    assert Decimal(10) == Decimal(1) + Decimal(0);
  }

  lemma NumberedInjective(name: string, m: nat, n: nat)
    requires 1 <= m && 1 <= n && Numbered(name, m) == Numbered(name, n)
    ensures m == n
  {
    var x, y := Numbered(name, m), Numbered(name, n);
    if m >= 2 && n >= 2 {
      assert x[|name| + 2..] == Decimal(m) && y[|name| + 2..] == Decimal(n);
      NumberOfDecimal(m);
      NumberOfDecimal(n);
    }
  }

  function Elements(s: seq<string>): set<string> {
    set x | x in s
  }

  /** The least-numbered name that is not in use. */
  ghost predicate IsNameFor(name: string, base: string, used: set<string>) {
    name !in used
    && exists n: nat :: n >= 1 && name == Numbered(base, n) && forall k: nat :: 1 <= k < n ==> Numbered(base, k) in used
  }

  lemma NameIsDetermined(a: string, b: string, base: string, used: set<string>)
    requires IsNameFor(a, base, used) && IsNameFor(b, base, used)
    ensures a == b
  {
    var m: nat :| m >= 1 && a == Numbered(base, m) && forall k: nat :: 1 <= k < m ==> Numbered(base, k) in used;
    var n: nat :| n >= 1 && b == Numbered(base, n) && forall k: nat :: 1 <= k < n ==> Numbered(base, k) in used;
    assert m < n ==> Numbered(base, m) in used;
    assert n < m ==> Numbered(base, n) in used;
  }

  /** Pigeonhole: as many different names cannot all be in use. */
  lemma SomeNameIsFree(base: string, used: set<string>, n: nat)
    requires n >= 1 && forall k: nat :: 1 <= k < n ==> Numbered(base, k) in used
    ensures n <= |used| + 1
  {
    var names := seq(n - 1, i requires 0 <= i < n - 1 => Numbered(base, i + 1));
    forall i, j | 0 <= i < j < |names|
      ensures names[i] != names[j]
    {
      if names[i] == names[j] {
        NumberedInjective(base, i + 1, j + 1);
      }
    }
    DistinctSize(names);
    SubsetSize(Elements(names), used);
  }

  // ---- the registry ----

  class NameRegistry {
    var used: set<string>

    constructor ()
      ensures used == {}
    {
      used := {};
    }

    /** `_name`, after the base: the search always ends, and the name is reserved. */
    method Reserve(base: string) returns (name: string)
      modifies this
      ensures IsNameFor(name, base, old(used)) && used == old(used) + {name}
    {
      name := base;
      var suffix := 2;
      SomeNameIsFree(base, used, 1);
      while name in used
        invariant suffix >= 2 && used == old(used) && name == Numbered(base, suffix - 1)
        invariant forall k: nat :: 1 <= k < suffix - 1 ==> Numbered(base, k) in used
        invariant suffix - 1 <= |used| + 1
        decreases |used| + 2 - suffix
      {
        SomeNameIsFree(base, used, suffix);
        name := base + " #" + Decimal(suffix);
        suffix := suffix + 1;
      }
      used := used + {name};
    }
  }

  // ---- the document ----

  /** What `config_to_clash_proxy` makes of a config, but for the name: an entry, None, or an exception. */
  datatype Conversion<Proxy> = Entry(proxy: Proxy) | Inexpressible | Raises

  /** The configs that come into the document. */
  function Listed<Proxy>(convert: Config -> Conversion<Proxy>): Config -> bool {
    (c: Config) => c.rawLink != "" && !c.Dead() && convert(c).Entry?
  }

  /** A config comes in exactly when it has a link, is not dead, and can be expressed. */
  lemma ListedIff<Proxy(!new)>(convert: Config -> Conversion<Proxy>, configs: seq<Config>, c: Config)
    ensures c in Filter(configs, Listed(convert)) <==>
            c in configs && c.rawLink != "" && c.isAlive != Some(false) && convert(c).Entry?
  {
    FilterMembers(configs, Listed(convert), c);
  }

  /** The bases of these configs, and the names given to them one after another. */
  ghost predicate NamesFor(names: seq<string>, strip: string -> string, configs: seq<Config>) {
    && |names| == |configs|
    && forall i :: 0 <= i < |names| ==> IsNameFor(names[i], Base(strip, configs[i]), Elements(names[..i]))
  }

  /** The entry of each of them. */
  ghost predicate EntriesFor<Proxy>(proxies: seq<Proxy>, convert: Config -> Conversion<Proxy>, configs: seq<Config>) {
    && |proxies| == |configs|
    && forall i :: 0 <= i < |configs| ==> convert(configs[i]) == Entry(proxies[i])
  }

  lemma EntriesSnoc<Proxy>(
    proxies: seq<Proxy>, convert: Config -> Conversion<Proxy>, configs: seq<Config>, proxy: Proxy, c: Config)
    requires EntriesFor(proxies, convert, configs) && convert(c) == Entry(proxy)
    ensures EntriesFor(proxies + [proxy], convert, configs + [c])
  {
  }

  /** `configs_to_clash`. The entries are those of the listed configs, in order, and only they have names. */
  method ConfigsToClash<Proxy>(strip: string -> string, convert: Config -> Conversion<Proxy>, configs: seq<Config>)
    returns (names: seq<string>, proxies: seq<Proxy>)
    ensures var listed := Filter(configs, Listed(convert));
            NamesFor(names, strip, listed) && EntriesFor(proxies, convert, listed)
  {
    var registry := new NameRegistry();
    names, proxies := [], [];
    for i := 0 to |configs|
      invariant registry.used == Elements(names)
      invariant var listed := Filter(configs[..i], Listed(convert));
                NamesFor(names, strip, listed) && EntriesFor(proxies, convert, listed)
    {
      var c := configs[i];
      assert configs[..i + 1] == configs[..i] + [c];
      FilterSnoc(configs[..i], c, Listed(convert));
      if c.rawLink == "" || c.Dead() {
        continue;
      }
      var conversion := convert(c);
      if conversion.Entry? {
        var name := registry.Reserve(Base(strip, c));
        NamesSnoc(names, strip, Filter(configs[..i], Listed(convert)), name, c);
        EntriesSnoc(proxies, convert, Filter(configs[..i], Listed(convert)), conversion.proxy, c);
        names, proxies := names + [name], proxies + [conversion.proxy];
      }
    }
    assert configs[..|configs|] == configs;
  }

  lemma NamesSnoc(names: seq<string>, strip: string -> string, configs: seq<Config>, name: string, c: Config)
    requires NamesFor(names, strip, configs) && IsNameFor(name, Base(strip, c), Elements(names))
    ensures NamesFor(names + [name], strip, configs + [c]) && Elements(names + [name]) == Elements(names) + {name}
  {
    var more, all := names + [name], configs + [c];
    forall i | 0 <= i < |more|
      ensures IsNameFor(more[i], Base(strip, all[i]), Elements(more[..i]))
    {
      assert more[..i] == names[..i];
      assert names[..|names|] == names;
    }
  }

  /** No two proxies have one name. */
  lemma NamesAreDistinct(names: seq<string>, strip: string -> string, configs: seq<Config>)
    requires NamesFor(names, strip, configs)
    ensures Distinct(names)
  {
    forall i, j | 0 <= i < j < |names|
      ensures names[i] != names[j]
    {
      assert names[i] in names[..j];
      assert names[j] !in Elements(names[..j]);
    }
  }

  /**
   The names depend on the listed configs alone: what else is in the input, rejected, dead or without a
   link, changes no name and leaves no hole in the numbers.
   */
  lemma NamesAreDetermined(a: seq<string>, b: seq<string>, strip: string -> string, configs: seq<Config>)
    requires NamesFor(a, strip, configs) && NamesFor(b, strip, configs)
    ensures a == b
  {
    NamesAgree(a, b, strip, configs, |configs|);
    assert a[..|configs|] == a && b[..|configs|] == b;
  }

  lemma {:induction false} NamesAgree(
    a: seq<string>, b: seq<string>, strip: string -> string, configs: seq<Config>, n: nat)
    requires NamesFor(a, strip, configs) && NamesFor(b, strip, configs) && n <= |configs|
    ensures a[..n] == b[..n]
  {
    if n > 0 {
      NamesAgree(a, b, strip, configs, n - 1);
      NextAgrees(a, b, strip, configs, n - 1);
      OneMoreAgrees(a, b, n - 1);
    }
  }

  lemma NextAgrees(a: seq<string>, b: seq<string>, strip: string -> string, configs: seq<Config>, i: nat)
    requires NamesFor(a, strip, configs) && NamesFor(b, strip, configs) && i < |configs| && a[..i] == b[..i]
    ensures a[i] == b[i]
  {
    NameIsDetermined(a[i], b[i], Base(strip, configs[i]), Elements(a[..i]));
  }

  lemma OneMoreAgrees(a: seq<string>, b: seq<string>, i: nat)
    requires i < |a| && i < |b| && a[..i] == b[..i] && a[i] == b[i]
    ensures a[..i + 1] == b[..i + 1]
  {
    assert a[..i + 1] == a[..i] + [a[i]] && b[..i + 1] == b[..i] + [b[i]];
  }

  /** A config keeps its own remark as its name exactly when no proxy before it has that name. */
  lemma OwnNameIff(names: seq<string>, strip: string -> string, configs: seq<Config>, i: nat)
    requires NamesFor(names, strip, configs) && i < |configs|
    ensures names[i] == Base(strip, configs[i]) <==> Base(strip, configs[i]) !in names[..i]
  {
    var base, used := Base(strip, configs[i]), Elements(names[..i]);
    assert IsNameFor(names[i], base, used);
    if base !in names[..i] {
      assert Numbered(base, 1) == base;
      assert IsNameFor(base, base, used);
      NameIsDetermined(names[i], base, base, used);
    }
  }

  /** No name breaks the line it stands on. */
  lemma NameIsOneLine(name: string, strip: string -> string, c: Config, used: set<string>)
    requires IsNameFor(name, Base(strip, c), used)
    ensures '\r' !in name && '\n' !in name
  {
    var base := Base(strip, c);
    var n: nat :| n >= 1 && name == Numbered(base, n);
    assert forall i :: 0 <= i < |name| ==> name[i] !in {'\r', '\n'};
  }
}
