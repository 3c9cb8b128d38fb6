/** What an installation leaves at a plugin when the host has a signing key. */
module SignedInstall {
  import opened Wrappers
  import opened FileTree
  import opened InstallSchema
  import opened InstallDriver
  import U = InstallUndo
  import R = InstallResult
  import P = Pipeline
  import S = PluginSigning

  /** `sign_installed_plugin` on a directory of this name; nothing where it raises. */
  ghost function SignedBy(id: string, dir: Tree, key: Bytes, prim: S.Primitives): Option<Tree> {
    match S.SignatureFor(dir, id, key, prim)
    case Raised => None
    case NotSigned => Some(dir)
    case Signature(text) => Some(S.WithSignature(dir, text))
  }

  /** The driver as it is made with a key. */
  ghost function WithKey(cfg: Config, key: Bytes, prim: S.Primitives): Config {
    cfg.(sign := Some((id, dir) => if IsDir(dir, []) then AsRemains(SignedBy(id, dir, key, prim)) else None))
  }

  function AsRemains(signed: Option<Tree>): Option<Remains> {
    if signed.Some? && IsDir(signed.value, []) then Some(signed.value) else None
  }

  /** The plugin's own manifest asks for trusted execution. */
  predicate Trusted(dir: Tree, prim: S.Primitives) {
    && IsFile(dir, S.PLUGIN_YAML)
    && var parsed := prim.parse(dir[S.PLUGIN_YAML].data);
       parsed.Some? && parsed.value.executionMode == Some("trusted")
  }

  /** The signature file is the one that signing this very directory writes. */
  ghost predicate CarriesItsSignature(dir: Tree, id: string, key: Bytes, prim: S.Primitives) {
    IsFile(dir, S.SIG) && S.SignatureFor(dir, id, key, prim) == S.Signature(dir[S.SIG].data)
  }

  lemma ShippedSigned(cfg: Config, id: string, key: Bytes, prim: S.Primitives)
    requires IsDir(cfg.extracted, Target(cfg.pluginsDirname, Plugin, id))
    ensures R.Shipped(WithKey(cfg, key, prim), Plugin, id) ==
            SignedBy(id, Sub(cfg.extracted, Target(cfg.pluginsDirname, Plugin, id)), key, prim)
  {
    var target := Target(cfg.pluginsDirname, Plugin, id);
    assert target + [] == target;
    SubAt(cfg.extracted, target, []);
    assert S.SIG != [];
  }

  lemma SignedCarriesIt(dir: Tree, id: string, key: Bytes, prim: S.Primitives)
    requires SignedBy(id, dir, key, prim).Some?
    ensures
      var signed := SignedBy(id, dir, key, prim).value;
      if Trusted(dir, prim) then
        CarriesItsSignature(signed, id, key, prim) && signed == S.WithSignature(dir, signed[S.SIG].data)
      else signed == dir
  {
    if Trusted(dir, prim) {
      S.SigningTwice(dir, id, key, prim);
    }
  }

  lemma {:induction false} TouchedIsShipped(h0: Host, cfg: Config, steps: seq<Step>, ws: seq<Weather>, kind: Kind, id: string)
    requires |steps| == |ws| && RunSteps(h0, cfg, steps, ws).1 && U.Touched(steps, kind, id)
    ensures IsDir(cfg.extracted, Target(cfg.pluginsDirname, kind, id))
    decreases |steps|
  {
    var n := |steps| - 1;
    if !U.Touches(steps[n], kind, id) {
      var i :| 0 <= i < |steps| && U.Touches(steps[i], kind, id);
      assert U.Touches(steps[..n][i], kind, id);
      TouchedIsShipped(h0, cfg, steps[..n], ws[..n], kind, id);
    }
  }

  /** Once a deployment has installed a plugin on a host with a key, the plugin's directory
      is the shipped one, and if it asks for trusted execution it carries the signature
      that is computed from the installed directory itself. */
  lemma TrustedPluginsAreSigned(o: P.Outside, cfg: Config, tree: Tree, steps: seq<Step>, id: string, key: Bytes,
                                prim: S.Primitives)
    requires P.Ran(o, WithKey(cfg, key, prim), tree, steps).1 && U.Touched(steps, Plugin, id)
    requires U.SeparateLayout(cfg.pluginsDirname) && U.ProperSteps(steps) && U.Rooted(tree, cfg.pluginsDirname)
    requires U.ProperItem(Plugin, id)
    ensures
      var content := Sub(cfg.extracted, Target(cfg.pluginsDirname, Plugin, id));
      var installed := Sub(P.Left(o, WithKey(cfg, key, prim), tree, steps), Target(cfg.pluginsDirname, Plugin, id));
      if Trusted(content, prim) then
        && CarriesItsSignature(installed, id, key, prim)
        && installed == S.WithSignature(content, installed[S.SIG].data)
      else installed == content
  {
    var keyed := WithKey(cfg, key, prim);
    var content := Sub(cfg.extracted, Target(cfg.pluginsDirname, Plugin, id));
    P.SucceededInstalls(o, keyed, tree, steps, Plugin, id);
    TouchedIsShipped(Host(tree, []), keyed, steps, P.WeatherOf(o, |steps|), Plugin, id);
    ShippedSigned(cfg, id, key, prim);
    SignedCarriesIt(content, id, key, prim);
  }
}
