/**
 Assembling a theme in src/theme.rs: the walk up `extends` in `resolve_with_layers`, with its loop and depth
 checks, and the layers it names. Where themes live and how a file parses are what the walk is given.
 */
module Themes {
  import opened Outcomes

  const MAX_ANCESTRY: nat := 8

  type Path = string

  datatype ThemeFile = ThemeFile(parent: Option<string>, text: string)

  datatype Problem =
    | Loop(chain: seq<string>)
    | TooDeep
    | NoPath(id: string)
    | Malformed(id: string)
    | GlyphSetNow(id: string)
    | NoTheme(id: string)
    | BadOverrides
    | BadGlyphs
    | BadLayers

  /** The operator's files, what UZE carries, and the choices made apart from the theme. */
  datatype Setting = Setting(
    pathOf: string -> Result<Option<Path>, ()>,
    parse: Path -> Result<ThemeFile, ()>,
    palettes: map<string, ThemeFile>,
    names: set<string>,
    default: ThemeFile,
    glyphSets: map<string, ThemeFile>,
    glyphs: Result<Option<string>, ()>,
    overrides: Result<Option<ThemeFile>, ()>,
    merges: (ThemeFile, seq<ThemeFile>) -> bool)  // whether the design system can make one theme of the layers

  /** The operator's file, else a palette UZE carries, else none for the built-in default. */
  function Written(env: Setting, id: string): Result<Option<ThemeFile>, Problem> {
    match env.pathOf(id)
    case Err(_) => Err(NoPath(id))
    case Ok(Some(path)) =>
      (match env.parse(path)
       case Ok(file) => Ok(Some(file))
       case Err(_) => Err(Malformed(id)))
    case Ok(None) =>
      if id in env.palettes then Ok(Some(env.palettes[id]))
      else if id in env.names then Ok(None)
      else if id in env.glyphSets then Err(GlyphSetNow(id))
      else Err(NoTheme(id))
  }

  function File(env: Setting, id: string): Option<ThemeFile> {
    match Written(env, id) case Ok(file) => file case Err(_) => None
  }

  // ----- The path up `extends` -----

  function Parent(env: Setting, id: string): Option<string> {
    match File(env, id) case Some(file) => file.parent case None => None
  }

  /** The id reached after `n` steps, as long as there is one. */
  function Nth(env: Setting, id: string, n: nat): Option<string> {
    if n == 0 then Some(id) else
      match Nth(env, id, n - 1) case Some(last) => Parent(env, last) case None => None
  }

  /** Every lookup on the path was usable, and it goes no further than its `n`th id. */
  ghost predicate EndsAt(env: Setting, id: string, n: nat) {
    var last := Nth(env, id, n);
    last.Some? && Written(env, last.value).Ok? && Parent(env, last.value).None?
  }

  ghost predicate FailsAt(env: Setting, id: string, n: nat) {
    var last := Nth(env, id, n);
    last.Some? && Written(env, last.value).Err?
  }

  ghost predicate RepeatsAt(env: Setting, id: string, n: nat) {
    Nth(env, id, n).Some? && exists m: nat :: m < n && Nth(env, id, m) == Nth(env, id, n)
  }

  lemma {:induction false} NoneStaysNone(env: Setting, id: string, m: nat, n: nat)
    requires m <= n && Nth(env, id, m).None?
    ensures Nth(env, id, n).None?
    decreases n
  {
    if m < n { NoneStaysNone(env, id, m, n - 1); }
  }

  lemma {:induction false} Shifted(env: Setting, id: string, m: nat, n: nat, k: nat)
    requires Nth(env, id, m) == Nth(env, id, n)
    ensures Nth(env, id, m + k) == Nth(env, id, n + k)
  {
    if k > 0 { Shifted(env, id, m, n, k - 1); }
  }

  /** A path that comes back to an id goes round for ever. */
  lemma {:induction false} LoopsNeverEnd(env: Setting, id: string, m: nat, n: nat, k: nat)
    requires m < n && Nth(env, id, m) == Nth(env, id, n) && Nth(env, id, n).Some?
    ensures Nth(env, id, k).Some?
    decreases k
  {
    if k <= n {
      if Nth(env, id, k).None? { NoneStaysNone(env, id, k, n); }
    } else {
      LoopsNeverEnd(env, id, m, n, k - (n - m));
      Shifted(env, id, m, n, k - n);
    }
  }

  lemma EndIsTheEnd(env: Setting, id: string, m: nat, n: nat)
    requires (EndsAt(env, id, m) || FailsAt(env, id, m)) && m < n
    ensures Nth(env, id, n).None?
  {
    NoneStaysNone(env, id, m + 1, n);
  }

  // ----- Layers -----

  datatype LayerName = BuiltIn | Glyphs(choice: string) | Theme(id: string) | Overrides

  /** The file a name stands for. */
  function Named(env: Setting, name: LayerName): Option<ThemeFile> {
    match name
    case BuiltIn => Some(env.default)
    case Glyphs(choice) => if choice in env.glyphSets then Some(env.glyphSets[choice]) else None
    case Theme(id) => File(env, id)
    case Overrides => if env.overrides.Ok? then env.overrides.value else None
  }

  datatype Assembled = Assembled(identity: ThemeFile, layers: seq<ThemeFile>, names: seq<LayerName>)

  function GlyphLayer(env: Setting): seq<LayerName> {
    if env.glyphs.Ok? && env.glyphs.value.Some? && env.glyphs.value.value in env.glyphSets
    then [Glyphs(env.glyphs.value.value)] else []
  }

  function OverrideLayer(env: Setting): seq<LayerName> {
    if env.overrides.Ok? && env.overrides.value.Some? then [Overrides] else []
  }

  /** The ids of a path, from its `n`th back to the one asked for. */
  function FromTop(env: Setting, id: string, n: nat): seq<LayerName> {
    if n == 0 then [] else
      (if Nth(env, id, n - 1).Some? then [Theme(Nth(env, id, n - 1).value)] else []) + FromTop(env, id, n - 1)
  }

  lemma {:induction false} FromTopReverses(env: Setting, id: string, chain: seq<string>, n: nat)
    requires n <= |chain| && forall i :: 0 <= i < n ==> Nth(env, id, i) == Some(chain[i])
    ensures |FromTop(env, id, n)| == n
    ensures forall i :: 0 <= i < n ==> FromTop(env, id, n)[i] == Theme(chain[n - 1 - i])
  {
    hide Written;
    if n > 0 {
      FromTopReverses(env, id, chain, n - 1);
      assert FromTop(env, id, n) == [Theme(chain[n - 1])] + FromTop(env, id, n - 1);
    }
  }

  /** Bottom-up: the default, the glyphs, the ancestors down to the theme asked for, the overrides. */
  ghost predicate IsStack(env: Setting, id: string, n: nat, out: Assembled) {
    var files := if File(env, Top(env, id, n)).Some? then n + 1 else n;
    && out.names == [BuiltIn] + GlyphLayer(env) + FromTop(env, id, files) + OverrideLayer(env)
    && Matched(env, out.names, out.layers)
    && out.identity == (if File(env, id).Some? then File(env, id).value else env.default)
  }

  function Top(env: Setting, id: string, n: nat): string {
    match Nth(env, id, n) case Some(last) => last case None => id
  }

  predicate ExtrasOk(env: Setting) {
    env.overrides.Ok? && env.glyphs.Ok?
  }

  method Reverse<T>(s: seq<T>) returns (r: seq<T>)
    ensures |r| == |s| && forall i :: 0 <= i < |s| ==> r[i] == s[|s| - 1 - i]
  {
    r := [];
    for i := 0 to |s|
      invariant |r| == i && forall k :: 0 <= k < i ==> r[k] == s[i - 1 - k]
    {
      r := [s[i]] + r;
    }
  }

  type Walk = Result<(seq<string>, seq<ThemeFile>), Problem>

  /** What an outcome of the walk says of the path. */
  ghost predicate Classified(env: Setting, id: string, walk: Walk) {
    if walk.Ok? then
      var (chain, ancestry) := walk.value;
      && 0 < |chain| <= MAX_ANCESTRY && EndsAt(env, id, |chain| - 1)
      && (forall i :: 0 <= i < |chain| ==> Nth(env, id, i) == Some(chain[i]))
      && |ancestry| == (if File(env, chain[|chain| - 1]).Some? then |chain| else |chain| - 1)
      && (forall i :: 0 <= i < |ancestry| ==> File(env, chain[i]) == Some(ancestry[i]))
    else if walk.error.Loop? then
      var chain := walk.error.chain;
      && 1 < |chain| <= MAX_ANCESTRY + 1 && RepeatsAt(env, id, |chain| - 1)
      && (forall n: nat :: n < |chain| - 1 ==> !RepeatsAt(env, id, n))
      && (forall i :: 0 <= i < |chain| ==> Nth(env, id, i) == Some(chain[i]))
    else if walk.error.TooDeep? then
      Nth(env, id, MAX_ANCESTRY).Some? && forall n: nat :: n <= MAX_ANCESTRY ==> !RepeatsAt(env, id, n)
    else
      exists n: nat :: n < MAX_ANCESTRY && FailsAt(env, id, n) && Written(env, Top(env, id, n)) == Err(walk.error)
  }

  lemma FileIsWritten(env: Setting, id: string)
    ensures var written := Written(env, id);
      && File(env, id) == (if written.Ok? then written.value else None)
      && Parent(env, id) == (if written.Ok? && written.value.Some? then written.value.value.parent else None)
      && (written.Err? ==> !written.error.Loop? && !written.error.TooDeep?
                           && !written.error.BadOverrides? && !written.error.BadGlyphs? && !written.error.BadLayers?)
  {
  }

  lemma RepeatsIfSeen(env: Setting, id: string, chain: seq<string>, current: string)
    requires forall i :: 0 <= i < |chain| ==> Nth(env, id, i) == Some(chain[i])
    requires Nth(env, id, |chain|) == Some(current)
    ensures RepeatsAt(env, id, |chain|) <==> current in chain
  {
    hide Written, Nth;
    if current in chain {
      var m: nat :| m < |chain| && chain[m] == current;
      assert Nth(env, id, m) == Nth(env, id, |chain|);
    }
  }

  lemma NthGoesOn(env: Setting, id: string, n: nat)
    ensures Nth(env, id, 0) == Some(id)
    ensures Nth(env, id, n + 1) == if Nth(env, id, n).Some? then Parent(env, Nth(env, id, n).value) else None
  {
    hide Parent;
  }

  /** The walk: the ids visited, and the file of each but a default that ends it. */
  method Climb(env: Setting, id: string) returns (walk: Walk)
    ensures Classified(env, id, walk)
  {
    hide Written, File, Parent, RepeatsAt, Nth;
    NthGoesOn(env, id, 0);
    var ancestry: seq<ThemeFile> := [];
    var chain: seq<string> := [];
    var next := Some(id);
    while next.Some?
      invariant |ancestry| == |chain| <= MAX_ANCESTRY && next == Nth(env, id, |chain|)
      invariant |chain| == 0 ==> next.Some?
      invariant forall i :: 0 <= i < |chain| ==>
        Nth(env, id, i) == Some(chain[i]) && File(env, chain[i]) == Some(ancestry[i])
      invariant forall n: nat :: n < |chain| ==> !RepeatsAt(env, id, n)
      decreases MAX_ANCESTRY - |chain|
    {
      var current := next.value;
      RepeatsIfSeen(env, id, chain, current);
      if current in chain {
        return Err(Loop(chain + [current]));
      }
      if |chain| >= MAX_ANCESTRY { return Err(TooDeep); }
      chain := chain + [current];
      var written := Written(env, current);
      FileIsWritten(env, current);
      NthGoesOn(env, id, |chain| - 1);
      if written.Err? {
        assert FailsAt(env, id, |chain| - 1) && Top(env, id, |chain| - 1) == current;
        return Err(written.error);
      }
      if written.value.None? { break; }
      next := written.value.value.parent;
      ancestry := ancestry + [written.value.value];
    }
    FileIsWritten(env, chain[|chain| - 1]);
    NthGoesOn(env, id, |chain| - 1);
    assert Nth(env, id, |chain| - 1) == Some(chain[|chain| - 1]);
    assert EndsAt(env, id, |chain| - 1);
    walk := Ok((chain, ancestry));
  }

  /** The ways a walk can come out shut one another out. */
  lemma OneWayOut(env: Setting, id: string, m: nat)
    requires EndsAt(env, id, m) || FailsAt(env, id, m)
    ensures forall n: nat :: !RepeatsAt(env, id, n)
    ensures forall n: nat :: m < n ==> Nth(env, id, n).None?
    ensures forall n: nat :: EndsAt(env, id, n) || FailsAt(env, id, n) ==> n == m
  {
    hide Written;
    forall n: nat ensures !RepeatsAt(env, id, n) {
      if RepeatsAt(env, id, n) {
        var k: nat :| k < n && Nth(env, id, k) == Nth(env, id, n);
        LoopsNeverEnd(env, id, k, n, m + 1);
      }
    }
    forall n: nat | m < n ensures Nth(env, id, n).None? { EndIsTheEnd(env, id, m, n); }
    forall n: nat | EndsAt(env, id, n) || FailsAt(env, id, n) ensures n == m {
      if n < m { EndIsTheEnd(env, id, n, m); }
    }
  }

  /** The path from `id` ends, every lookup usable, within the ids allowed. */
  ghost predicate Ends(env: Setting, id: string) {
    exists n: nat :: n < MAX_ANCESTRY && EndsAt(env, id, n)
  }

  /** It comes back to an id before the bound stops it. */
  ghost predicate Loops(env: Setting, id: string) {
    exists n: nat :: n <= MAX_ANCESTRY && RepeatsAt(env, id, n)
  }

  lemma Excluded(env: Setting, id: string, walk: Walk)
    requires Classified(env, id, walk)
    ensures walk.Ok? <==> Ends(env, id)
    ensures walk.Err? && walk.error.Loop? <==> Loops(env, id)
    ensures walk.Err? && walk.error.TooDeep? <==> Nth(env, id, MAX_ANCESTRY).Some? && !Loops(env, id)
    ensures walk.Err? ==> !walk.error.BadOverrides? && !walk.error.BadGlyphs? && !walk.error.BadLayers?
  {
    hide Written, Nth;
    if walk.Err? && !walk.error.Loop? && !walk.error.TooDeep? {
      var n: nat :| n < MAX_ANCESTRY && FailsAt(env, id, n) && Written(env, Top(env, id, n)) == Err(walk.error);
      FileIsWritten(env, Top(env, id, n));
    }
    if n: nat :| n < MAX_ANCESTRY && (EndsAt(env, id, n) || FailsAt(env, id, n)) {
      OneWayOut(env, id, n);
    }
  }

  /** What the walk found, turned bottom-up: the files as they are pushed, and the ids that have one. */
  method BottomUp(env: Setting, id: string, chain: seq<string>, ancestry: seq<ThemeFile>)
    returns (files: seq<ThemeFile>, themes: seq<LayerName>)
    requires Classified(env, id, Ok((chain, ancestry)))
    ensures themes == FromTop(env, id, |ancestry|) && Matched(env, themes, files)
    ensures (if files != [] then files[|files| - 1] else env.default) ==
            if File(env, id).Some? then File(env, id).value else env.default
  {
    hide Written, Parent, Nth, EndsAt, FromTop, File;
    FromTopReverses(env, id, chain, |ancestry|);
    NthIsFirst(env, id, chain);
    files := Reverse(ancestry);
    var shown := Reverse(chain[..|ancestry|]);
    themes := seq(|shown|, i requires 0 <= i < |shown| => Theme(shown[i]));
  }

  /** Each name stands for the layer beside it. */
  ghost predicate Matched(env: Setting, names: seq<LayerName>, layers: seq<ThemeFile>) {
    |names| == |layers| && forall i :: 0 <= i < |names| ==> Named(env, names[i]) == Some(layers[i])
  }

  lemma MatchedJoin(env: Setting, a: seq<LayerName>, b: seq<LayerName>, f: seq<ThemeFile>, g: seq<ThemeFile>)
    requires Matched(env, a, f) && Matched(env, b, g)
    ensures Matched(env, a + b, f + g)
  {
    hide Named;
  }

  /** From the walk to the layers: the names are taken down the chain, the files down the ancestry. */
  method Assemble(env: Setting, id: string, chain: seq<string>, ancestry: seq<ThemeFile>)
    returns (out: Result<Assembled, Problem>)
    requires Classified(env, id, Ok((chain, ancestry)))
    ensures out.Ok? <==> ExtrasOk(env)
    ensures out.Err? ==> out.error == if env.overrides.Err? then BadOverrides else BadGlyphs
    ensures out.Ok? ==> IsStack(env, id, |chain| - 1, out.value)
  {
    hide Written, Parent, Nth, EndsAt, FromTop, File, Top, Matched;
    var files, themes := BottomUp(env, id, chain, ancestry);
    NthIsFirst(env, id, chain);
    var identity := if files != [] then files[|files| - 1] else env.default;
    if env.overrides.Err? { return Err(BadOverrides); }
    if env.glyphs.Err? { return Err(BadGlyphs); }
    var layers, names := Below(env);
    MatchedJoin(env, names, themes, layers, files);
    layers, names := layers + files, names + themes;
    if env.overrides.value.Some? {
      Alone(env, Overrides, env.overrides.value.value);
      MatchedJoin(env, names, [Overrides], layers, [env.overrides.value.value]);
      layers, names := layers + [env.overrides.value.value], names + [Overrides];
    }
    out := Ok(Assembled(identity, layers, names));
  }

  /** The layers under every theme. */
  method Below(env: Setting) returns (layers: seq<ThemeFile>, names: seq<LayerName>)
    requires ExtrasOk(env)
    ensures names == [BuiltIn] + GlyphLayer(env) && Matched(env, names, layers)
  {
    layers, names := [env.default], [BuiltIn];
    if env.glyphs.value.Some? && env.glyphs.value.value in env.glyphSets {
      layers := layers + [env.glyphSets[env.glyphs.value.value]];
      names := names + [Glyphs(env.glyphs.value.value)];
    }
  }

  lemma Alone(env: Setting, name: LayerName, file: ThemeFile)
    requires Named(env, name) == Some(file)
    ensures Matched(env, [name], [file])
  {
  }

  lemma NthIsFirst(env: Setting, id: string, chain: seq<string>)
    requires chain != [] && forall i :: 0 <= i < |chain| ==> Nth(env, id, i) == Some(chain[i])
    ensures chain[0] == id && Top(env, id, |chain| - 1) == chain[|chain| - 1]
  {
    assert Nth(env, id, 0) == Some(id);
  }

  lemma OneStack(env: Setting, id: string, n: nat, a: Assembled, b: Assembled)
    requires IsStack(env, id, n, a) && IsStack(env, id, n, b)
    ensures a == b
  {
    hide Named, FromTop, File, Top;
    assert forall i :: 0 <= i < |a.layers| ==> Some(a.layers[i]) == Named(env, a.names[i]) == Some(b.layers[i]);
    assert a.layers == b.layers;
  }

  /** The layers the path stands for make one theme. */
  ghost predicate Merges(env: Setting, id: string) {
    exists n: nat, a ::
      n < MAX_ANCESTRY && EndsAt(env, id, n) && IsStack(env, id, n, a) && env.merges(a.identity, a.layers)
  }

  lemma MergesExactlyThen(env: Setting, id: string, n: nat, a: Assembled)
    requires n < MAX_ANCESTRY && EndsAt(env, id, n) && IsStack(env, id, n, a)
    ensures Merges(env, id) <==> env.merges(a.identity, a.layers)
  {
    hide EndsAt, IsStack;
    if Merges(env, id) {
      var m: nat, b :|
        m < MAX_ANCESTRY && EndsAt(env, id, m) && IsStack(env, id, m, b) && env.merges(b.identity, b.layers);
      OneWayOut(env, id, n);
      OneStack(env, id, n, a, b);
    }
  }

  // ----- Said of the files alone -----

  /** The path goes from an id to what its file extends: the operator's file first, then a palette UZE carries. */
  lemma ThePathFollowsParents(env: Setting, id: string, n: nat)
    ensures Nth(env, id, 0) == Some(id) && (Nth(env, id, n).None? ==> Nth(env, id, n + 1).None?)
    ensures Nth(env, id, n).Some? ==>
      var at := Nth(env, id, n).value; var path := env.pathOf(at);
      Nth(env, id, n + 1) ==
        if path.Ok? && path.value.Some? then
          if env.parse(path.value.value).Ok? then env.parse(path.value.value).value.parent else None
        else if path.Ok? && at in env.palettes then env.palettes[at].parent
        else None
  {
  }

  /** The operator's file makes the layer where there is one, and a palette UZE carries only where there is none. */
  lemma WhoseLayersTheyAre(env: Setting, id: string, n: nat, out: Assembled)
    requires IsStack(env, id, n, out)
    ensures |out.layers| == |out.names|
    ensures forall i :: 0 <= i < |out.names| && out.names[i].Theme? ==>
      var at := out.names[i].id; var path := env.pathOf(at);
      && path.Ok?
      && (if path.value.Some? then env.parse(path.value.value) == Ok(out.layers[i])
          else at in env.palettes && out.layers[i] == env.palettes[at])
    ensures forall i :: 0 <= i < |out.names| && out.names[i].Glyphs? ==>
      out.names[i].choice in env.glyphSets && out.layers[i] == env.glyphSets[out.names[i].choice]
    ensures forall i :: 0 <= i < |out.names| && out.names[i].Overrides? ==> env.overrides == Ok(Some(out.layers[i]))
    ensures forall i :: 0 <= i < |out.names| && out.names[i].BuiltIn? ==> out.layers[i] == env.default
  {
    forall i | 0 <= i < |out.names| ensures Named(env, out.names[i]) == Some(out.layers[i]) {}
  }

  /** The theme goes by its own file, never by an ancestor's, and by the default's only where it has none. */
  lemma WhoseIdentityItIs(env: Setting, id: string, n: nat, out: Assembled)
    requires IsStack(env, id, n, out) && EndsAt(env, id, n)
    ensures var path := env.pathOf(id);
      && path.Ok?
      && (if path.value.Some? then env.parse(path.value.value) == Ok(out.identity)
          else if id in env.palettes then out.identity == env.palettes[id]
          else id in env.names && out.identity == env.default)
  {
    ThePathFollowsParents(env, id, n);
    if n > 0 {
      if Nth(env, id, 1).None? { NoneStaysNone(env, id, 1, n); }
    }
  }

  /** The ids that make a layer, bottom-up. */
  ghost predicate Lineage(env: Setting, id: string, ids: seq<string>) {
    && (ids != [] ==> ids[|ids| - 1] == id)
    && (forall i :: 0 <= i < |ids| ==> Nth(env, id, |ids| - 1 - i) == Some(ids[i]))
    && (Nth(env, id, |ids|).Some? ==> File(env, Nth(env, id, |ids|).value).None?)
  }

  function Themed(ids: seq<string>): seq<LayerName> {
    seq(|ids|, i requires 0 <= i < |ids| => Theme(ids[i]))
  }

  /**
   From the bottom: the default, the glyphs chosen, the themes from the farthest ancestor with a file down to the one
   asked for, the overrides.
   */
  lemma HowTheyAreStacked(env: Setting, id: string, n: nat, out: Assembled)
    requires IsStack(env, id, n, out) && EndsAt(env, id, n) && ExtrasOk(env)
    ensures exists ids ::
      && out.names == [BuiltIn]
           + (if env.glyphs.value.Some? && env.glyphs.value.value in env.glyphSets
              then [Glyphs(env.glyphs.value.value)] else [])
           + Themed(ids)
           + (if env.overrides.value.Some? then [Overrides] else [])
      && Lineage(env, id, ids)
  {
    hide Named, Written, File, Matched, Parent;
    var files := if File(env, Top(env, id, n)).Some? then n + 1 else n;
    NoGap(env, id, n);
    var ids := seq(files, i requires 0 <= i < files => Nth(env, id, files - 1 - i).value);
    FromTopIsThemed(env, id, files, ids);
    AfterTheEnd(env, id, n);
    assert Lineage(env, id, ids);
  }

  lemma NoGap(env: Setting, id: string, n: nat)
    requires Nth(env, id, n).Some?
    ensures forall k: nat :: k <= n ==> Nth(env, id, k).Some?
    ensures Nth(env, id, 0) == Some(id)
  {
    hide Parent;
    forall k: nat | k <= n ensures Nth(env, id, k).Some? {
      if Nth(env, id, k).None? { NoneStaysNone(env, id, k, n); }
    }
  }

  lemma AfterTheEnd(env: Setting, id: string, n: nat)
    requires EndsAt(env, id, n)
    ensures Nth(env, id, n + 1).None?
  {
  }

  lemma {:induction false} FromTopIsThemed(env: Setting, id: string, files: nat, ids: seq<string>)
    requires |ids| == files
    requires forall i :: 0 <= i < files ==> Nth(env, id, files - 1 - i) == Some(ids[i])
    ensures FromTop(env, id, files) == Themed(ids)
  {
    hide Nth;
    if files > 0 {
      FromTopIsThemed(env, id, files - 1, ids[1..]);
      assert Nth(env, id, files - 1 - 0) == Some(ids[0]);
      assert Themed(ids) == [Theme(ids[0])] + Themed(ids[1..]);
    }
  }

  /** An id nothing can be read for: what is wrong with it, the operator's own file coming before all else. */
  lemma WhatIsWrong(env: Setting, id: string, n: nat)
    requires Nth(env, id, n).Some?
    ensures var at := Nth(env, id, n).value; var path := env.pathOf(at);
      && (path.Err? ==> FailsAt(env, id, n) && Written(env, at).error == NoPath(at))
      && (path.Ok? && path.value.Some? ==>
            && (FailsAt(env, id, n) <==> env.parse(path.value.value).Err?)
            && (FailsAt(env, id, n) ==> Written(env, at).error == Malformed(at)))
      && (path.Ok? && path.value.None? ==>
            && (FailsAt(env, id, n) <==> at !in env.palettes && at !in env.names)
            && (FailsAt(env, id, n) ==>
                  Written(env, at).error == if at in env.glyphSets then GlyphSetNow(at) else NoTheme(at)))
  {
  }

  lemma FailuresShutOut(env: Setting, id: string, n: nat)
    requires n < 8 && FailsAt(env, id, n)
    ensures !Ends(env, id) && !Loops(env, id) && Nth(env, id, 8).None?
    ensures forall m: nat :: FailsAt(env, id, m) ==> m == n
  {
    hide Written, Nth;
    OneWayOut(env, id, n);
  }

  /**
   `resolve_with_layers`: it succeeds exactly when the path ends within the bound, the overrides and the glyph
   choice can be read, and the layers make one theme; it reports a loop exactly when an id repeats before the
   bound stops the walk, and names its layers one for one, bottom-up.
   */
  method ResolveWithLayers(env: Setting, id: string) returns (out: Result<Assembled, Problem>)
    ensures out.Ok? <==> Ends(env, id) && ExtrasOk(env) && Merges(env, id)
    ensures out.Ok? ==> exists n: nat :: n < 8 && EndsAt(env, id, n) && IsStack(env, id, n, out.value)
    ensures out.Err? && out.error.Loop? <==> Loops(env, id)
    ensures out.Err? && out.error.TooDeep? <==> Nth(env, id, 8).Some? && !Loops(env, id)
    ensures Ends(env, id) && out.Err? ==>
      out.error == if env.overrides.Err? then BadOverrides else if env.glyphs.Err? then BadGlyphs else BadLayers
    ensures (!Ends(env, id) && !Loops(env, id) && Nth(env, id, 8).None?) ==>
      (exists n: nat :: n < 8 && FailsAt(env, id, n) && out == Err(Written(env, Top(env, id, n)).error))
    ensures forall n: nat :: n < 8 && FailsAt(env, id, n) ==> out == Err(Written(env, Top(env, id, n)).error)
    ensures var path := env.pathOf(id);
      && (path.Ok? && path.value.Some? && env.parse(path.value.value).Err? ==> out == Err(Malformed(id)))
      && (out.Ok? ==>
            && path.Ok?
            && (if path.value.Some? then env.parse(path.value.value) == Ok(out.value.identity)
                else if id in env.palettes then out.value.identity == env.palettes[id]
                else id in env.names && out.value.identity == env.default))
    ensures out.Ok? ==> forall i :: 0 <= i < |out.value.names| && out.value.names[i].Theme? ==>
      var at := out.value.names[i].id; var path := env.pathOf(at);
      && path.Ok? && i < |out.value.layers|
      && (if path.value.Some? then env.parse(path.value.value) == Ok(out.value.layers[i])
          else at in env.palettes && out.value.layers[i] == env.palettes[at])
  {
    hide Written, IsStack, Merges, EndsAt, FailsAt, Ends, Loops;
    forall n: nat | n < 8 && FailsAt(env, id, n)
      ensures !Ends(env, id) && !Loops(env, id) && Nth(env, id, 8).None?
      ensures forall m: nat :: FailsAt(env, id, m) ==> m == n
    {
      FailuresShutOut(env, id, n);
    }
    WhatIsWrong(env, id, 0);
    assert Top(env, id, 0) == id && Nth(env, id, 0) == Some(id);
    var walk := Climb(env, id);
    Excluded(env, id, walk);
    if walk.Err? { return Err(walk.error); }
    var (chain, ancestry) := walk.value;
    out := Assemble(env, id, chain, ancestry);
    if out.Ok? {
      WhoseLayersTheyAre(env, id, |chain| - 1, out.value);
      WhoseIdentityItIs(env, id, |chain| - 1, out.value);
      MergesExactlyThen(env, id, |chain| - 1, out.value);
      if !env.merges(out.value.identity, out.value.layers) { out := Err(BadLayers); }
    }
  }
}
