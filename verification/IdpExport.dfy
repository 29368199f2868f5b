/** scripts/deploy/idp_export.py: erasing identity-provider client secrets before the
    provider list is written into the committed realm documents. */
module IdpExport {
  import opened Text
  import opened Lists
  import opened Dicts
  import opened Json
  import opened RealmSplice

  type Fields = Dict<Json>

  const SECRET := "clientSecret"
  const VAULT := "${vault:"

  function Placeholder(alias: string): string { VAULT + "idp/" + alias + "/client_secret}" }

  function SafeConfig(source: Fields, placeholder: string): Fields {
    Without(source, SECRET) + if Has(source, SECRET) then [(SECRET, Str(placeholder))] else []
  }

  datatype Refusal = NoAlias | ConfigNotAnObject | PlaintextSecret

  /** `idp.get("config") or {}`, which must then be a dict. */
  function SourceConfig(idp: Fields): Result<Fields, Refusal> {
    var config := Get(idp, "config", Null);
    if !Truthy(config) then Ok([]) else if config.Obj? then Ok(config.members) else Err(ConfigNotAnObject)
  }

  /** One round of `externalize_idp_secrets`; `show` is Python's `str` on the alias. */
  function ExternalizeOne(show: Json -> string, idp: Fields): Result<Fields, Refusal> {
    var alias := Get(idp, "alias", Null);
    if !Truthy(alias) then Err(NoAlias)
    else match SourceConfig(idp)
      case Err(why) => Err(why)
      case Ok(source) =>
        Ok(Without(idp, "config") + [("config", Obj(SafeConfig(source, Placeholder(show(alias)))))])
  }

  function Externalize(show: Json -> string, idps: seq<Fields>): (r: Result<seq<Fields>, Refusal>)
    ensures r.Ok? ==>
              |r.value| == |idps| && forall i :: 0 <= i < |idps| ==> ExternalizeOne(show, idps[i]) == Ok(r.value[i])
    ensures r.Err? ==> exists i :: 0 <= i < |idps| && ExternalizeOne(show, idps[i]) == Err(r.error)
  {
    if idps == [] then Ok([])
    else match ExternalizeOne(show, idps[0])
      case Err(why) => Err(why)
      case Ok(safe) => match Externalize(show, idps[1..])
        case Err(why) => Err(why)
        case Ok(rest) => Ok([safe] + rest)
  }

  /** `externalize_idp_secrets`: append each sanitised provider, stop at the first that
      cannot be. */
  method ExternalizeIdpSecrets(show: Json -> string, idps: seq<Fields>) returns (r: Result<seq<Fields>, Refusal>)
    ensures r == Externalize(show, idps)
  {
    hide ExternalizeOne;
    var externalized: seq<Fields> := [];
    assert idps[0..] == idps;
    assert forall rest: seq<Fields> :: externalized + rest == rest;
    for n := 0 to |idps|
      invariant Externalize(show, idps) == match Externalize(show, idps[n..])
                                           case Err(why) => Err(why)
                                           case Ok(rest) => Ok(externalized + rest)
    {
      assert idps[n..][1..] == idps[n + 1..];
      var one := ExternalizeOne(show, idps[n]);
      if one.Err? { return Err(one.error); }
      assert forall rest: seq<Fields> :: externalized + ([one.value] + rest) == (externalized + [one.value]) + rest;
      externalized := externalized + [one.value];
    }
    assert externalized + [] == externalized;
    return Ok(externalized);
  }

  /** `assert_no_plaintext_client_secret` lets this provider pass: its config is a dict
      whose secret is empty or a Vault placeholder. */
  predicate PassesAssertion(idp: Fields) {
    var config := Get(idp, "config", Null);
    && config.Obj?
    && var secret := Get(config.members, SECRET, Null);
       !Truthy(secret) || (secret.Str? && StartsWith(secret.s, VAULT))
  }

  /** `build_export_payload`. */
  function BuildExportPayload(show: Json -> string, idps: seq<Fields>, mappers: seq<Json>): Result<Payload, Refusal> {
    match Externalize(show, idps)
    case Err(why) => Err(why)
    case Ok(safe) =>
      if forall i :: 0 <= i < |safe| ==> PassesAssertion(safe[i])
      then Ok(map[PROVIDERS := Objects(safe), MAPPERS := mappers])
      else Err(PlaintextSecret)
  }

  function Objects(ds: seq<Fields>): seq<Json> { seq(|ds|, i requires 0 <= i < |ds| => Obj(ds[i])) }

  // ------------------------------------------------------- what is guaranteed

  /** What one provider becomes, member by member: everything but its config as it was, in
      order; then the config, in which everything but the secret is as it was, and a secret
      that was there, whatever its value, is the placeholder made from the alias. A provider
      is refused when it has no alias, or a config that is something and no object. */
  lemma ExternalizedIs(show: Json -> string, idp: Fields, name: string)
    ensures var alias, config := Get(idp, "alias", Null), Get(idp, "config", Null);
            ExternalizeOne(show, idp).Ok? <==> Truthy(alias) && (!Truthy(config) || config.Obj?)
    ensures ExternalizeOne(show, idp).Ok? ==>
              var out, was := ExternalizeOne(show, idp).value, Get(idp, "config", Null);
              var source: Fields := if was.Obj? then was.members else [];
              && Has(out, "config") && Get(out, "config", Null).Obj?
              && (name != "config" ==> Has(out, name) == Has(idp, name) && Get(out, name, Null) == Get(idp, name, Null))
              && var safe := Get(out, "config", Null).members;
                 && Has(safe, name) == Has(source, name)
                 && (name != "clientSecret" ==> Get(safe, name, Null) == Get(source, name, Null))
                 && (Has(source, "clientSecret") ==>
                       Get(safe, "clientSecret", Null) ==
                       Str("${vault:idp/" + show(Get(idp, "alias", Null)) + "/client_secret}"))
  {
    hide Without, Has, Get, Truthy;
    if ExternalizeOne(show, idp).Ok? {
      ConfigMembers(idp);
      var alias, source := Get(idp, "alias", Null), SourceConfig(idp).value;
      var placeholder := Placeholder(show(alias));
      var config := [("config", Obj(SafeConfig(source, placeholder)))];
      WithoutFacts(idp, "config", name, config);
      HasWithout(idp, "config", name, config);
      OneField("config", config[0].1, name);
      var tail: Fields := if Has(source, SECRET) then [(SECRET, Str(placeholder))] else [];
      WithoutFacts(source, SECRET, name, tail);
      HasWithout(source, SECRET, name, tail);
      OneField(SECRET, Str(placeholder), name);
      NothingHeld(name);
      NothingHeld(SECRET);
      assert placeholder == "${vault:idp/" + show(alias) + "/client_secret}";
    }
  }

  lemma ConfigMembers(idp: Fields)
    requires SourceConfig(idp).Ok?
    ensures var was := Get(idp, "config", Null);
            SourceConfig(idp).value == if was.Obj? then was.members else []
  {
  }

  lemma {:induction false} HasWithout(d: Fields, key: string, name: string, tail: Fields)
    ensures name != key ==> (Has(Without(d, key) + tail, name) <==> Has(d, name) || Has(tail, name))
  {
    if d == [] {
      assert [] + tail == tail;
    } else {
      HasWithout(d[1..], key, name, tail);
      if d[0].0 != key {
        var rest := Without(d[1..], key);
        assert ([d[0]] + rest) + tail == [d[0]] + (rest + tail);
        assert ([d[0]] + (rest + tail))[1..] == rest + tail;
      }
    }
  }

  /** The outgoing assertion never fires on a sanitised provider. */
  lemma SanitisedPasses(show: Json -> string, idp: Fields)
    requires ExternalizeOne(show, idp).Ok?
    ensures PassesAssertion(ExternalizeOne(show, idp).value)
  {
    hide Without, Has, Placeholder;
    var alias, source := Get(idp, "alias", Null), SourceConfig(idp).value;
    var placeholder := Placeholder(show(alias));
    WithoutFacts(idp, "config", "alias", [("config", Obj(SafeConfig(source, placeholder)))]);
    var tail: Fields := if Has(source, SECRET) then [(SECRET, Str(placeholder))] else [];
    WithoutFacts(source, SECRET, "alias", tail);
    PlaceholderIsVault(show(alias));
  }

  lemma PlaceholderIsVault(alias: string)
    ensures StartsWith(Placeholder(alias), VAULT)
  {
    assert Placeholder(alias)[..|VAULT|] == VAULT;
  }

  /** So the only refusals are the externaliser's own. */
  lemma PayloadRefusals(show: Json -> string, idps: seq<Fields>, mappers: seq<Json>)
    ensures BuildExportPayload(show, idps, mappers).Ok? <==> Externalize(show, idps).Ok?
  {
    hide PassesAssertion, ExternalizeOne;
    var r := Externalize(show, idps);
    if r.Ok? {
      forall i | 0 <= i < |idps| ensures PassesAssertion(r.value[i]) { SanitisedPasses(show, idps[i]); }
    }
  }

  /** Externalising an externalised provider changes nothing, not even member order. */
  lemma ExternalizeOneIdempotent(show: Json -> string, idp: Fields)
    requires ExternalizeOne(show, idp).Ok?
    ensures ExternalizeOne(show, ExternalizeOne(show, idp).value) == ExternalizeOne(show, idp)
  {
    hide Truthy, Without, Has, Placeholder;
    var alias, source := Get(idp, "alias", Null), SourceConfig(idp).value;
    var placeholder := Placeholder(show(alias));
    var safe := SafeConfig(source, placeholder);
    var once := ExternalizeOne(show, idp).value;
    var config: Fields := [("config", Obj(safe))];
    OneField("config", Obj(safe), "alias");
    WithoutFacts(idp, "config", "alias", config);
    SafeConfigIdempotent(source, placeholder);
    assert SourceConfig(once) == Ok(safe) by { EmptyIsFalsy(safe); }
    assert Without(idp, "config") + [] == Without(idp, "config");
    assert Without(once, "config") == Without(idp, "config");
  }

  lemma EmptyIsFalsy(d: Fields)
    ensures Truthy(Obj(d)) <==> d != []
  {
  }

  lemma OneField(key: string, value: Json, other: string)
    ensures (key != other ==> !Has([(key, value)], other)) && Has([(key, value)], key)
    ensures Without([(key, value)], key) == [] && Get([(key, value)], key, Null) == value
  {
  }

  lemma SafeConfigIdempotent(source: Fields, placeholder: string)
    ensures SafeConfig(SafeConfig(source, placeholder), placeholder) == SafeConfig(source, placeholder)
  {
    hide Without, Has;
    var tail: Fields := if Has(source, SECRET) then [(SECRET, Str(placeholder))] else [];
    OneField(SECRET, Str(placeholder), "");
    WithoutFacts(source, SECRET, "", tail);
    NothingHeld(SECRET);
    assert Without(source, SECRET) + [] == Without(source, SECRET);
  }

  lemma NothingHeld(key: string)
    ensures var none: Fields := []; !Has(none, key) && Without(none, key) == []
  {
  }

  /** Two configs that differ at most in the secret's value. */
  ghost predicate SameConfig(u: Json, v: Json) {
    u == v ||
    (u.Obj? && v.Obj? && |u.members| == |v.members| &&
     forall i :: 0 <= i < |u.members| ==>
       u.members[i].0 == v.members[i].0 && (u.members[i].0 != SECRET ==> u.members[i] == v.members[i]))
  }

  /** Two providers that differ at most in the value of `config.clientSecret`. */
  ghost predicate SameButSecret(x: Fields, y: Fields) {
    |x| == |y| &&
    forall i :: 0 <= i < |x| ==>
      x[i].0 == y[i].0 && (if x[i].0 == "config" then SameConfig(x[i].1, y[i].1) else x[i].1 == y[i].1)
  }

  lemma {:induction false} SecretOnlyDiffers(u: Fields, v: Fields)
    requires SameConfig(Obj(u), Obj(v))
    ensures Without(u, SECRET) == Without(v, SECRET) && Has(u, SECRET) == Has(v, SECRET)
    decreases |u|
  {
    if u != [] && u != v {
      assert u[0].0 == v[0].0;
      assert forall i :: 0 <= i < |u[1..]| ==> u[1..][i] == u[i + 1] && v[1..][i] == v[i + 1];
      SecretOnlyDiffers(u[1..], v[1..]);
    }
  }

  lemma {:induction false} ConfigOnlyDiffers(x: Fields, y: Fields)
    requires SameButSecret(x, y)
    ensures Without(x, "config") == Without(y, "config")
    ensures SameConfig(Get(x, "config", Null), Get(y, "config", Null)) && Get(x, "alias", Null) == Get(y, "alias", Null)
    decreases |x|
  {
    hide SameConfig;
    if x != [] {
      assert forall i :: 0 <= i < |x[1..]| ==> x[1..][i] == x[i + 1] && y[1..][i] == y[i + 1];
      ConfigOnlyDiffers(x[1..], y[1..]);
    } else {
      SameIsSame(Null);
    }
  }

  lemma SameIsSame(u: Json)
    ensures SameConfig(u, u)
  {
  }

  /** Non-interference for one provider: the secret's value reaches neither the result
      nor the decision to refuse. */
  lemma ExternalizeOneIgnoresSecret(show: Json -> string, x: Fields, y: Fields)
    requires SameButSecret(x, y)
    ensures ExternalizeOne(show, x) == ExternalizeOne(show, y)
  {
    hide Without, Has, Placeholder;
    ConfigOnlyDiffers(x, y);
    var u, v := Get(x, "config", Null), Get(y, "config", Null);
    if u.Obj? && v.Obj? { SecretOnlyDiffers(u.members, v.members); }
  }

  ghost predicate SameButSecrets(xs: seq<Fields>, ys: seq<Fields>) {
    |xs| == |ys| && forall i :: 0 <= i < |xs| ==> SameButSecret(xs[i], ys[i])
  }

  lemma {:induction false} ExternalizeIgnoresSecrets(show: Json -> string, xs: seq<Fields>, ys: seq<Fields>)
    requires SameButSecrets(xs, ys)
    ensures Externalize(show, xs) == Externalize(show, ys)
    decreases |xs|
  {
    hide ExternalizeOne, SameButSecret;
    if xs != [] {
      ExternalizeOneIgnoresSecret(show, xs[0], ys[0]);
      ExternalizeIgnoresSecrets(show, xs[1..], ys[1..]);
    }
  }

  /** The exported payload, and every document patched with it, is a function of the
      secret-erased provider list. */
  lemma ExportIgnoresSecrets(show: Json -> string, xs: seq<Fields>, ys: seq<Fields>, mappers: seq<Json>, text: string)
    requires SameButSecrets(xs, ys)
    ensures var p, q := BuildExportPayload(show, xs, mappers), BuildExportPayload(show, ys, mappers);
            p == q && (p.Ok? ==> PatchKeys(text, p.value, KEYS) == PatchKeys(text, q.value, KEYS))
  {
    hide PatchKeys, PassesAssertion, Externalize;
    ExternalizeIgnoresSecrets(show, xs, ys);
  }

  lemma {:induction false} ExternalizeIdempotent(show: Json -> string, idps: seq<Fields>)
    requires Externalize(show, idps).Ok?
    ensures Externalize(show, Externalize(show, idps).value) == Externalize(show, idps)
  {
    hide ExternalizeOne;
    if idps != [] {
      ExternalizeOneIdempotent(show, idps[0]);
      ExternalizeIdempotent(show, idps[1..]);
      var safe := Externalize(show, idps).value;
      assert safe[1..] == Externalize(show, idps[1..]).value;
    }
  }

  lemma KeysAreWords()
    ensures Word(MAPPERS) && Word(PROVIDERS)
  {
  }

  /** The export as a whole, on values: after the patch the document's provider list denotes
      exactly the externalised providers, one for each, in order (ExternalizedIs says what
      each is), and its mapper list exactly the mappers. */
  lemma CommittedDenotes(show: Json -> string, idps: seq<Fields>, mappers: seq<Json>, text: string)
    requires BuildExportPayload(show, idps, mappers).Ok? && HoldsBoth(text, MAPPERS, PROVIDERS)
    requires var p := BuildExportPayload(show, idps, mappers).value;
             Reaches(text, MAPPERS, PROVIDERS, ArrayOf(p[MAPPERS]), ArrayOf(p[PROVIDERS]))
    ensures var r := PatchKeys(text, BuildExportPayload(show, idps, mappers).value, KEYS);
            && r.Patched? && ValueAt(r.text, "identityProviderMappers") == Some(Arr(mappers))
            && exists out: seq<Json> ::
                 && ValueAt(r.text, "identityProviders") == Some(Arr(out)) && |out| == |idps|
                 && forall i :: 0 <= i < |idps| ==>
                      out[i].Obj? && ExternalizeOne(show, idps[i]) == Ok(out[i].members)
  {
    hide PatchKeys, HoldsBoth, Reaches, ArrayOf, Word, Ordered, ExternalizeOne, ValueAt, PassesAssertion;
    KeysAreWords();
    var p := BuildExportPayload(show, idps, mappers).value;
    PatchedDenotes(text, p, MAPPERS, PROVIDERS);
    var safe := Externalize(show, idps).value;
    var out := Objects(safe);
    assert p[PROVIDERS] == out && forall i :: 0 <= i < |safe| ==> out[i] == Obj(safe[i]);
  }

  /** Re-exporting after a secret rotation leaves a patched document as it is. */
  lemma RotationIsInvisible(show: Json -> string, before: seq<Fields>, after: seq<Fields>, mappers: seq<Json>,
                            text: string)
    requires SameButSecrets(before, after) && BuildExportPayload(show, before, mappers).Ok?
    requires HoldsBoth(text, MAPPERS, PROVIDERS)
    requires var p := BuildExportPayload(show, before, mappers).value;
             Reaches(text, MAPPERS, PROVIDERS, ArrayOf(p[MAPPERS]), ArrayOf(p[PROVIDERS]))
    ensures BuildExportPayload(show, after, mappers).Ok?
    ensures var committed := PatchKeys(text, BuildExportPayload(show, before, mappers).value, KEYS);
            committed.Patched? &&
            PatchKeys(committed.text, BuildExportPayload(show, after, mappers).value, KEYS) == committed
  {
    hide PatchKeys, HoldsBoth, Reaches, ArrayOf, Word, SameButSecrets, Ordered;
    ExportIgnoresSecrets(show, before, after, mappers, text);
    KeysAreWords();
    var p := BuildExportPayload(show, before, mappers).value;
    PatchLastWins(text, p, p, MAPPERS, PROVIDERS);
  }
}
