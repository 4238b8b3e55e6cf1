/**
 * Tool names on their way to the model and back: the bidirectional name map with its collision
 * suffix (src/core/tool_schema.py:31-69), the adapter's allowlist and name resolution
 * (src/core/adapters.py:361-380, 407-415, 442-460) and the router over adapters
 * (src/core/agentic_loop.py:178-189, 319-331).
 */
module ToolNames {
  import opened Basics

  // ----- names -----

  function ReplaceChar(text: string, from: char, to: char): (r: string)
    ensures |r| == |text|
    ensures forall i :: 0 <= i < |text| ==> r[i] == if text[i] == from then to else text[i]
  {
    seq(|text|, i requires 0 <= i < |text| => if text[i] == from then to else text[i])
  }

  /** The Converse-safe form of a name before collisions are looked at. */
  function Sanitized(serverName: string): string { ReplaceChar(serverName, '-', '_') }

  /** Hyphens become underscores, and an alias is numbered in decimal digits. */
  lemma NamesAre(name: string, n: nat)
    ensures |Sanitized(name)| == |name|
    ensures forall i :: 0 <= i < |name| ==> Sanitized(name)[i] == if name[i] == '-' then '_' else name[i]
    ensures |Suffixed(name, n)| > |name| && Suffixed(name, n)[..|name| + 1] == name + "_"
    ensures var number := Suffixed(name, n)[|name| + 1..];
      ReadDigits(number) == n && forall c :: c in number ==> '0' <= c <= '9'
  {
    DecimalReadsBack(n);
    assert Suffixed(name, n)[|name| + 1..] == Decimal(n);
    assert Suffixed(name, n)[..|name| + 1] == name + "_";
  }

  predicate HyphenFree(text: string) { forall i :: 0 <= i < |text| ==> text[i] != '-' }

  function Suffixed(base: string, n: nat): string { base + "_" + Decimal(n) }

  lemma SuffixedIsInjective(base: string, m: nat, n: nat)
    requires Suffixed(base, m) == Suffixed(base, n)
    ensures m == n
  {
    assert Suffixed(base, m)[|base| + 1..] == Decimal(m);
    assert Suffixed(base, n)[|base| + 1..] == Decimal(n);
    DecimalIsInjective(m, n);
  }

  lemma {:induction false} DecimalIsHyphenFree(n: nat)
    ensures HyphenFree(Decimal(n))
  {
    if n < 10 {
    } else {
      DecimalIsHyphenFree(n / 10);
    }
  }

  // ----- the name map -----

  /** The two dictionaries of a ToolNameMap. */
  datatype Names = Names(toServer: map<string, string>, toConverse: map<string, string>)

  /** A server name comes back from its Converse name, and answers to its sanitized form when
      it owns it. */
  predicate RoundTrips(m: Names, s: string)
  {
    s in m.toConverse ==>
      && m.toConverse[s] in m.toServer
      && m.toServer[m.toConverse[s]] == s
      && Sanitized(s) in m.toServer
      && (m.toServer[Sanitized(s)] == s ==> m.toConverse[s] == Sanitized(s))
  }

  /** A Converse name is hyphen-free and stands for a registered server name; the empty name
      stands for itself alone. */
  predicate Issued(m: Names, c: string)
  {
    c in m.toServer ==> HyphenFree(c) && m.toServer[c] in m.toConverse && (c == "" <==> m.toServer[c] == "")
  }

  /** The two directions agree. */
  ghost predicate Consistent(m: Names)
  {
    && (forall s {:trigger RoundTrips(m, s)} :: RoundTrips(m, s))
    && (forall c {:trigger Issued(m, c)} :: Issued(m, c))
  }

  /** Another server name already holds the sanitized form of `serverName`. */
  predicate Collides(m: Names, serverName: string)
  {
    var c := Sanitized(serverName);
    c in m.toServer && m.toServer[c] != serverName
  }

  /** `k` is the least suffix that is still free. */
  ghost predicate LeastFree(m: Names, base: string, k: nat)
  {
    k >= 1 && Suffixed(base, k) !in m.toServer && forall j :: 1 <= j < k ==> Suffixed(base, j) in m.toServer
  }

  /** The effect of `register`: `converseName` is the name it picks. */
  ghost predicate Registers(before: Names, serverName: string, after: Names, converseName: string)
  {
    && (if Collides(before, serverName)
        then exists k ::
          LeastFree(before, Sanitized(serverName), k) && converseName == Suffixed(Sanitized(serverName), k)
        else converseName == Sanitized(serverName))
    && after == Names(before.toServer[converseName := serverName], before.toConverse[serverName := converseName])
  }

  /** Registration keeps the map consistent and never re-points a name already handed out. */
  lemma RegisterKeeps(before: Names, serverName: string, after: Names, converseName: string)
    requires Consistent(before) && Registers(before, serverName, after, converseName)
    ensures Consistent(after)
    ensures forall c :: c in before.toServer ==> c in after.toServer && after.toServer[c] == before.toServer[c]
    ensures after.toServer[after.toConverse[serverName]] == serverName
  {
    if Collides(before, serverName) {
      var k :| LeastFree(before, Sanitized(serverName), k) && converseName == Suffixed(Sanitized(serverName), k);
      DecimalIsHyphenFree(k);
    }
    assert HyphenFree(converseName);
    assert RoundTrips(before, serverName);
    assert Issued(before, Sanitized(serverName));
    assert converseName == "" <==> serverName == "";
    forall s
      ensures RoundTrips(after, s)
    {
      assert RoundTrips(before, s);
      assert Issued(before, converseName);
    }
    forall c
      ensures Issued(after, c)
    {
      assert Issued(before, c);
    }
  }

  /** Distinct server names have distinct Converse names. */
  lemma ConverseNamesAreDistinct(m: Names, s: string, t: string)
    requires Consistent(m) && s in m.toConverse && t in m.toConverse && s != t
    ensures m.toConverse[s] != m.toConverse[t]
  {
    assert RoundTrips(m, s) && RoundTrips(m, t);
  }

  /** Registering a name a second time returns its old Converse name exactly when the name does
      not collide; a name that collided gets a new alias each time. */
  lemma ReRegister(m: Names, serverName: string, after: Names, converseName: string)
    requires Consistent(m) && serverName in m.toConverse
    requires Registers(m, serverName, after, converseName)
    ensures converseName == m.toConverse[serverName] <==> !Collides(m, serverName)
    ensures Collides(m, serverName) ==> converseName !in m.toServer
  {
    assert RoundTrips(m, serverName);
  }

  /** Two server names with one sanitized form: the first has it, and registering the second twice
      hands out two different aliases. */
  lemma SecondAlias(s: string, t: string, one: Names, two: Names, three: Names, a: string, b: string, c: string)
    requires Sanitized(s) == Sanitized(t) && s != t
    requires Registers(Names(map[], map[]), s, one, a) && Registers(one, t, two, b) && Registers(two, t, three, c)
    ensures a == Sanitized(s) && b == a + "_1" && c == a + "_2"
    ensures three.toServer == map[a := s, b := t, c := t] && three.toConverse == map[s := a, t := c]
  {
    var base := Sanitized(s);
    var k :| LeastFree(one, base, k) && b == Suffixed(base, k);
    assert |Suffixed(base, 1)| > |base|;
    assert Suffixed(base, 1) !in one.toServer;
    var m :| LeastFree(two, base, m) && c == Suffixed(base, m);
    assert |Suffixed(base, 2)| > |base|;
    if Suffixed(base, 2) == Suffixed(base, 1) {
      SuffixedIsInjective(base, 2, 1);
    }
    assert Suffixed(base, 2) !in two.toServer;
  }

  class ToolNameMap {
    var names: Names

    constructor ()
      ensures names == Names(map[], map[]) && Consistent(names)
    {
      names := Names(map[], map[]);
    }

    /** The suffix search ends: suffixed names differ, and only finitely many are taken. */
    method Register(serverName: string) returns (converseName: string)
      requires Consistent(names)
      modifies this
      ensures Registers(old(names), serverName, names, converseName)
      ensures Consistent(names)
    {
      converseName := Sanitized(serverName);
      if converseName in names.toServer && names.toServer[converseName] != serverName {
        var suffix := 1;
        ghost var taken: set<string> := {};
        while Suffixed(converseName, suffix) in names.toServer
          invariant suffix >= 1 && names == old(names)
          invariant forall j :: 1 <= j < suffix ==> Suffixed(converseName, j) in names.toServer
          invariant taken <= names.toServer.Keys
          invariant forall t :: t in taken ==> exists j :: 1 <= j < suffix && t == Suffixed(converseName, j)
          decreases names.toServer.Keys - taken
        {
          ghost var t := Suffixed(converseName, suffix);
          if t in taken {
            var j :| 1 <= j < suffix && t == Suffixed(converseName, j);
            SuffixedIsInjective(converseName, suffix, j);
          }
          taken := taken + {t};
          suffix := suffix + 1;
        }
        assert LeastFree(names, converseName, suffix);
        converseName := Suffixed(converseName, suffix);
      }
      names := Names(names.toServer[converseName := serverName], names.toConverse[serverName := converseName]);
      RegisterKeeps(old(names), serverName, names, converseName);
    }
  }

  // ----- the adapter -----

  /** `_resolve_server_name`. */
  function ResolveServerName(names: Option<Names>, allowlist: set<string>, converseName: string): string
  {
    if names.Some? && converseName in names.value.toServer && names.value.toServer[converseName] != "" then
      names.value.toServer[converseName]
    else if converseName in allowlist then converseName
    else
      var hyphenName := ReplaceChar(converseName, '_', '-');
      if hyphenName in allowlist then hyphenName else converseName
  }

  datatype Access = Reaches(serverName: string) | PermissionDenied

  class McpAdapter {
    const allowlist: set<string>
    var nameMap: ToolNameMap?

    constructor (allowlist: set<string>)
      ensures this.allowlist == allowlist && nameMap == null
    {
      this.allowlist := allowlist;
      nameMap := null;
    }

    ghost predicate Valid()
      reads this, nameMap
    {
      nameMap != null ==> Consistent(nameMap.names)
    }

    /** `_build_specs_from_session`: one advertised name per allowlisted tool, in the server's
        order, and each still leads to its own tool after all of them are registered. */
    method BuildSpecs(serverTools: seq<string>) returns (advertised: seq<(string, string)>)
      modifies this
      ensures Valid() && nameMap != null && fresh(nameMap)
      ensures ServerNames(advertised) == Filtered(serverTools, allowlist)
      ensures forall k :: 0 <= k < |advertised| ==>
        && HyphenFree(advertised[k].0)
        && advertised[k].1 in allowlist
        && AccessFor(Some(nameMap.names), allowlist, advertised[k].0) == Reaches(advertised[k].1)
    {
      var built := new ToolNameMap();
      advertised := [];
      for i := 0 to |serverTools|
        invariant fresh(built) && Consistent(built.names)
        invariant ServerNames(advertised) == Filtered(serverTools[..i], allowlist)
        invariant forall k :: 0 <= k < |advertised| ==>
          && HyphenFree(advertised[k].0)
          && advertised[k].1 in allowlist
          && advertised[k].0 in built.names.toServer
          && built.names.toServer[advertised[k].0] == advertised[k].1
      {
        assert serverTools[..i + 1][..i] == serverTools[..i];
        if serverTools[i] in allowlist {
          ghost var before := built.names;
          var name := built.Register(serverTools[i]);
          RegisterKeeps(before, serverTools[i], built.names, name);
          assert Issued(built.names, name);
          advertised := advertised + [(name, serverTools[i])];
        }
      }
      assert serverTools[..|serverTools|] == serverTools;
      forall k | 0 <= k < |advertised|
        ensures AccessFor(Some(built.names), allowlist, advertised[k].0) == Reaches(advertised[k].1)
      {
        MappedNameReaches(built.names, allowlist, advertised[k].0);
      }
      nameMap := built;
    }

    /** `call_tool` up to the session: which server tool a model's tool name reaches. Only an
        allowlisted one, and before there is a map none whose name spells no allowlisted tool. */
    method CallTool(name: string) returns (access: Access)
      ensures access == AccessFor(if nameMap == null then None else Some(nameMap.names), allowlist, name)
      ensures access.Reaches? ==> access.serverName in allowlist
      ensures nameMap == null && (forall a :: a in allowlist ==> Sanitized(a) != Sanitized(name)) ==>
        access.PermissionDenied?
    {
      OnlyAllowlistedTools(if nameMap == null then None else Some(nameMap.names), allowlist, name);
      var serverName := ResolveServerName(if nameMap == null then None else Some(nameMap.names), allowlist, name);
      if serverName !in allowlist {
        return PermissionDenied;
      }
      return Reaches(serverName);
    }
  }

  function ServerNames(advertised: seq<(string, string)>): seq<string>
  {
    seq(|advertised|, i requires 0 <= i < |advertised| => advertised[i].1)
  }

  function Filtered(tools: seq<string>, allowlist: set<string>): seq<string>
  {
    if tools == [] then []
    else
      Filtered(tools[..|tools| - 1], allowlist)
      + if tools[|tools| - 1] in allowlist then [tools[|tools| - 1]] else []
  }

  function AccessFor(names: Option<Names>, allowlist: set<string>, name: string): Access
  {
    var s := ResolveServerName(names, allowlist, name);
    if s in allowlist then Reaches(s) else PermissionDenied
  }

  /** Which server tool a name from the model reaches: the one it stands for in the map; else the tool
      of just that name; else, with every underscore read as a hyphen, the tool of that name. None of
      them is reached unless it is allowlisted. */
  lemma AccessIs(names: Option<Names>, allowlist: set<string>, name: string, mapped: bool, hyphens: string)
    requires mapped <==>
      names.Some? && name in names.value.toServer && names.value.toServer[name] != ""
    requires |hyphens| == |name|
    requires forall i :: 0 <= i < |name| ==> hyphens[i] == if name[i] == '_' then '-' else name[i]
    ensures AccessFor(names, allowlist, name) ==
      if mapped then
        (if names.value.toServer[name] in allowlist then Reaches(names.value.toServer[name]) else PermissionDenied)
      else if name in allowlist then Reaches(name)
      else if hyphens in allowlist then Reaches(hyphens)
      else PermissionDenied
  {
    assert ReplaceChar(name, '_', '-') == hyphens;
  }

  /** Before there is a map, the Converse name of an allowlisted tool reaches that tool exactly if the
      tool's name has no hyphen, or has no underscore and no tool is called by the Converse name. */
  lemma UnmappedNameReaches(allowlist: set<string>, tool: string)
    requires tool in allowlist
    ensures AccessFor(None, allowlist, Sanitized(tool)) == Reaches(tool) <==>
      '-' !in tool || ('_' !in tool && Sanitized(tool) !in allowlist)
  {
    var name := Sanitized(tool);
    var hyphens := ReplaceChar(name, '_', '-');
    if '-' !in tool {
      assert name == tool;
    } else {
      var i :| 0 <= i < |tool| && tool[i] == '-';
      assert name[i] == '_' && name != tool;
      if '_' !in tool {
        assert hyphens == tool;
      } else {
        var k :| 0 <= k < |tool| && tool[k] == '_';
        assert hyphens[k] == '-' && hyphens != tool;
      }
    }
  }

  /** The allowlisted tools, in the server's order. */
  lemma {:induction false} FilteredInOrder(tools: seq<string>, more: seq<string>, allowlist: set<string>, tool: string)
    ensures Filtered(tools + more, allowlist) == Filtered(tools, allowlist) + Filtered(more, allowlist)
    ensures Filtered([tool], allowlist) == if tool in allowlist then [tool] else []
    decreases |more|
  {
    assert [tool][..0] == [];
    if more == [] {
      assert tools + more == tools;
    } else {
      var n := |more| - 1;
      FilteredInOrder(tools, more[..n], allowlist, tool);
      assert (tools + more)[..|tools + more| - 1] == tools + more[..n];
    }
  }

  /** A name in the map reaches exactly the tool it stands for, if that is allowlisted. */
  lemma MappedNameReaches(names: Names, allowlist: set<string>, name: string)
    requires Consistent(names) && name in names.toServer
    ensures var tool := names.toServer[name];
      AccessFor(Some(names), allowlist, name) == if tool in allowlist then Reaches(tool) else PermissionDenied
  {
    assert Issued(names, name);
  }

  /** Whatever name the model emits, before or after the map exists, only an allowlisted tool is
      reached; and without a map, a name that spells no allowlisted tool is refused. */
  lemma OnlyAllowlistedTools(names: Option<Names>, allowlist: set<string>, name: string)
    ensures AccessFor(names, allowlist, name).Reaches? ==> AccessFor(names, allowlist, name).serverName in allowlist
    ensures (forall a :: a in allowlist ==> Sanitized(a) != Sanitized(name)) && names.None? ==>
      AccessFor(names, allowlist, name) == PermissionDenied
  {
  }

  // ----- the router -----

  /** The tool specs of each adapter in turn, or None where listing them failed. */
  type Listing = seq<(string, Option<seq<string>>)>

  predicate Advertises(entry: (string, Option<seq<string>>), name: string)
  {
    entry.1.Some? && name in entry.1.value
  }

  /** The route of `name` is the last adapter that advertises it. */
  ghost predicate LastAdvertiser(listing: Listing, routes: map<string, string>, name: string)
  {
    if name in routes
    then exists i :: 0 <= i < |listing| && Advertises(listing[i], name) && routes[name] == listing[i].0
           && forall j :: i < j < |listing| ==> !Advertises(listing[j], name)
    else forall i :: 0 <= i < |listing| ==> !Advertises(listing[i], name)
  }

  method BuildRoutes(listing: Listing) returns (routes: map<string, string>)
    ensures forall name :: LastAdvertiser(listing, routes, name)
  {
    routes := map[];
    for i := 0 to |listing|
      invariant forall name :: LastAdvertiser(listing[..i], routes, name)
    {
      ghost var before := routes;
      match listing[i].1 {
        case None =>
        case Some(specs) =>
          for k := 0 to |specs|
            invariant forall name :: name in routes <==> name in before || name in specs[..k]
            invariant forall name :: name in routes ==>
              routes[name] == if name in specs[..k] then listing[i].0 else before[name]
          {
            routes := routes[specs[k] := listing[i].0];
          }
          assert specs[..|specs|] == specs;
      }
      ghost var now := listing[..i + 1];
      forall name
        ensures LastAdvertiser(now, routes, name)
      {
        assert LastAdvertiser(listing[..i], before, name);
        assert now[i] == listing[i] && forall j :: 0 <= j < i ==> now[j] == listing[..i][j];
      }
    }
    assert listing[..|listing|] == listing;
  }

  /** A tool call goes back to an adapter of the advertising one's name exactly when the last
      adapter that advertises the tool has that name. */
  lemma RouteIsOwn(listing: Listing, routes: map<string, string>, i: nat, name: string)
    requires forall n :: LastAdvertiser(listing, routes, n)
    requires i < |listing| && Advertises(listing[i], name)
    ensures name in routes
    ensures routes[name] == listing[i].0 <==>
      exists j :: i <= j < |listing| && Advertises(listing[j], name) && listing[j].0 == listing[i].0
        && forall k :: j < k < |listing| ==> !Advertises(listing[k], name)
  {
    assert LastAdvertiser(listing, routes, name);
  }
}
