/**
 * The backend client's configuration (src/lib/supabase.ts): the placeholder
 * fallback used to build the client and the "is it configured" predicate.
 * The two build-time variables are `None` when unset.
 */
module SupabaseConfig {
  import opened Outcomes
  import RunSeed

  /** The address the client falls back to. */
  const PlaceholderUrl: string := "https://placeholder-url.supabase.co"

  /** The key the client falls back to. */
  const PlaceholderKey: string := "placeholder-key"

  /** `value || placeholder`: the variable when it is set and non-empty, else the placeholder. */
  function ClientSetting(value: Option<string>, placeholder: string): (r: string)
    ensures Truthy(value) ==> r == value.value
    ensures !Truthy(value) ==> r == placeholder
    ensures placeholder != "" ==> r != ""
  {
    if Truthy(value) then value.value else placeholder
  }

  /**
   * `isSupabaseConfigured`: neither variable equals its placeholder nor the
   * empty string. An unset variable passes both comparisons.
   */
  function IsConfigured(url: Option<string>, key: Option<string>): (ok: bool)
    ensures ok <==> (url.None? || (url.value != PlaceholderUrl && url.value != ""))
                    && (key.None? || (key.value != PlaceholderKey && key.value != ""))
  {
    url != Some(PlaceholderUrl) && key != Some(PlaceholderKey) && url != Some("") && key != Some("")
  }

  /**
   * When both variables are set, "configured" means exactly that the client
   * was built from them and not from a placeholder.
   */
  lemma ConfiguredIffClientUsesVariables(url: string, key: string)
    ensures IsConfigured(Some(url), Some(key)) <==>
      (ClientSetting(Some(url), PlaceholderUrl) == url && url != PlaceholderUrl
       && ClientSetting(Some(key), PlaceholderKey) == key && key != PlaceholderKey)
  {
  }

  /**
   * With neither variable set the predicate still reports "configured",
   * although the client is built from both placeholders.
   */
  lemma UnsetCountsAsConfigured()
    ensures IsConfigured(None, None)
    ensures ClientSetting(None, PlaceholderUrl) == PlaceholderUrl
    ensures ClientSetting(None, PlaceholderKey) == PlaceholderKey
  {
  }

  /**
   * A `.env` that passes the seed wrapper's check and holds no placeholder
   * also configures the app's client, when the same file feeds both.
   */
  lemma SeedCheckImpliesConfigured(env: RunSeed.Env)
    requires RunSeed.MissingVar(env).None?
    requires RunSeed.Lookup(env, "VITE_SUPABASE_URL") != Some(PlaceholderUrl)
    requires RunSeed.Lookup(env, "VITE_SUPABASE_ANON_KEY") != Some(PlaceholderKey)
    ensures IsConfigured(RunSeed.Lookup(env, "VITE_SUPABASE_URL"), RunSeed.Lookup(env, "VITE_SUPABASE_ANON_KEY"))
  {
    assert Truthy(RunSeed.Lookup(env, RunSeed.RequiredVars[0]));
    assert Truthy(RunSeed.Lookup(env, RunSeed.RequiredVars[1]));
  }
}
