/** The cookie-consent context of src/lib/CookieConsentContext.tsx: the visitor's choice, kept
    under `cookie_consent` in localStorage and announced to Google Tag Manager through
    `window.dataLayer`. None of it catches, so blocked storage surfaces as a throw. */
module CookieConsent {
  import opened Common
  import opened Json
  import opened BrowserStorage

  /** A choice the visitor made; the context's `null` is None. */
  datatype Consent = Granted | Denied

  const ConsentKey: string := "cookie_consent"

  /** The text stored for a choice. */
  function ConsentText(c: Consent): string
  {
    match c
    case Granted => "granted"
    case Denied => "denied"
  }

  /** The stored text the provider adopts on load: exactly "granted" and "denied". */
  function StoredConsent(stored: Option<string>): (r: Option<Consent>)
    ensures r.Some? <==> stored == Some("granted") || stored == Some("denied")
    ensures r.Some? ==> stored == Some(ConsentText(r.value))
  {
    if stored == Some("granted") then Some(Granted)
    else if stored == Some("denied") then Some(Denied)
    else None
  }

  /** What is stored reads back as the same choice. */
  lemma StoredConsentRoundTrip(c: Consent)
    ensures StoredConsent(Some(ConsentText(c))) == Some(c)
  {
  }

  /** `consent === "granted" ? "granted" : "denied"`. */
  function GtmValue(c: Option<Consent>): (v: string)
    ensures v == "granted" <==> c == Some(Granted)
    ensures v != "granted" ==> v == "denied"
  {
    if c == Some(Granted) then "granted" else "denied"
  }

  /** The two entries `updateGtmConsent` pushes: the `gtag("consent", "update", …)` arguments
      with one value for all four categories, then the custom event. */
  function ConsentEntries(c: Option<Consent>): (e: seq<Json>)
    ensures |e| == 2
    ensures e[1] == Object(map["event" := Str("co_consent_update")])
    ensures e[0].Array? && |e[0].items| == 3 && e[0].items[0] == Str("consent") && e[0].items[1] == Str("update")
    ensures var v := Str(GtmValue(c));
      e[0].items[2] == Object(map["ad_storage" := v, "ad_user_data" := v, "ad_personalization" := v,
                                  "analytics_storage" := v])
  {
    var v := Str(GtmValue(c));
    [Array([Str("consent"), Str("update"),
            Object(map["ad_storage" := v, "ad_user_data" := v, "ad_personalization" := v, "analytics_storage" := v])]),
     Object(map["event" := Str("co_consent_update")])]
  }

  /** A refusal and every value but "granted" deny all four categories alike. */
  lemma OnlyGrantedGrants(c: Option<Consent>)
    ensures c != Some(Granted) ==> ConsentEntries(c) == ConsentEntries(Some(Denied))
    ensures ConsentEntries(Some(Granted)) != ConsentEntries(Some(Denied))
  {
    assert GtmValue(Some(Granted)) != GtmValue(Some(Denied));
    assert ConsentEntries(Some(Granted))[0].items[2] != ConsentEntries(Some(Denied))[0].items[2] by {
      var g := ConsentEntries(Some(Granted))[0].items[2];
      var d := ConsentEntries(Some(Denied))[0].items[2];
      assert g.fields["ad_storage"] == Str("granted");
      assert d.fields["ad_storage"] == Str("denied");
    }
  }

  /** `CookieConsentProvider` in the browser, where its effects run. */
  class ConsentProvider {
    const store: LocalStorage
    var consent: Option<Consent>
    /** `window.dataLayer`, the empty list while it is undefined. */
    var dataLayer: seq<Json>

    /** The first render: no choice yet. */
    constructor (store: LocalStorage, dataLayer: seq<Json>)
      ensures this.store == store && consent.None? && this.dataLayer == dataLayer
    {
      this.store := store;
      consent := None;
      this.dataLayer := dataLayer;
    }

    /** `updateGtmConsent`: the two entries go after the existing ones. */
    method UpdateGtmConsent(c: Option<Consent>)
      modifies this
      ensures dataLayer == old(dataLayer) + ConsentEntries(c)
      ensures consent == old(consent)
    {
      var v := Str(GtmValue(c));
      dataLayer := dataLayer + [Array([Str("consent"), Str("update"),
        Object(map["ad_storage" := v, "ad_user_data" := v, "ad_personalization" := v, "analytics_storage" := v])])];
      dataLayer := dataLayer + [Object(map["event" := Str("co_consent_update")])];
    }

    /** The mount effect: adopt and announce a valid stored choice; anything else changes
        nothing. */
    method Load() returns (threw: bool)
      modifies this
      ensures threw <==> !store.accessible
      ensures threw ==> consent == old(consent) && dataLayer == old(dataLayer)
      ensures !threw ==>
        var adopted := StoredConsent(Lookup(store.items, ConsentKey));
        && consent == (if adopted.Some? then adopted else old(consent))
        && (adopted.Some? ==> UseCookieConsent(Some(this)) == Returned(adopted))
        && dataLayer == old(dataLayer) + (if adopted.Some? then ConsentEntries(adopted) else [])
    {
      if !store.accessible {
        return true;
      }
      var stored := store.GetItem(ConsentKey);
      var adopted := StoredConsent(stored);
      if adopted.Some? {
        consent := adopted;
        UpdateGtmConsent(adopted);
      }
      return false;
    }

    /** `setConsent`: the state always changes; a choice is also stored and announced. */
    method SetConsent(c: Option<Consent>) returns (threw: bool)
      modifies this, store
      ensures consent == c
      ensures UseCookieConsent(Some(this)) == Returned(c)
      ensures threw <==> c.Some? && !store.accessible
      ensures c.None? || threw ==> store.items == old(store.items) && dataLayer == old(dataLayer)
      ensures c.Some? && !threw ==>
        && store.items == old(store.items)[ConsentKey := ConsentText(c.value)]
        && dataLayer == old(dataLayer) + ConsentEntries(c)
    {
      consent := c;
      if c.None? {
        return false;
      }
      if !store.accessible {
        return true;
      }
      store.SetItem(ConsentKey, ConsentText(c.value));
      UpdateGtmConsent(c);
      return false;
    }
  }

  /** `useCookieConsent()`: the choice of the provider above the caller, or a throw when
      there is none. */
  function UseCookieConsent(provider: Option<ConsentProvider>): (r: Outcome<Option<Consent>>)
    reads if provider.Some? then {provider.value} else {}
    ensures r.Threw? <==> provider.None?
    ensures provider.Some? ==> r == Returned(provider.value.consent)
  {
    if provider.None? then Threw else Returned(provider.value.consent)
  }

  /** A choice outlives the page: the provider of the next page load, over the same storage,
      hands its consumers the choice made on this one. */
  method ChoiceSurvivesReload(store: LocalStorage, c: Consent) returns (seen: Outcome<Option<Consent>>)
    requires store.accessible
    modifies store
    ensures seen == Returned(Some(c))
  {
    var page := new ConsentProvider(store, []);
    var _ := page.SetConsent(Some(c));
    var next := new ConsentProvider(store, []);
    var _ := next.Load();
    seen := UseCookieConsent(Some(next));
  }
}
