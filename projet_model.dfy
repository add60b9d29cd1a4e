/** The `Etat` enumeration and the `Projet` record of the portfolio. */
module ProjetModel {
  import opened Wrappers

  /** Lifecycle state of a project; the TypeScript enum numbers them 0 to 4 in this order. */
  datatype Etat = EnDev | EnLigne | NonPublie | EnPause | Annule

  /** The numeric value of each enum member. */
  function Ordinal(e: Etat): (n: nat)
    ensures n < 5
  {
    match e
    case EnDev => 0
    case EnLigne => 1
    case NonPublie => 2
    case EnPause => 3
    case Annule => 4
  }

  /** Distinct members have distinct numbers. */
  lemma OrdinalInjective(e: Etat, f: Etat)
    requires Ordinal(e) == Ordinal(f)
    ensures e == f
  {
  }

  /** Every number below 5 is the value of some member. */
  lemma OrdinalOnto(n: nat)
    requires n < 5
    ensures exists e :: Ordinal(e) == n
  {
    var e := if n == 0 then EnDev else if n == 1 then EnLigne else if n == 2 then NonPublie
             else if n == 3 then EnPause else Annule;
    assert Ordinal(e) == n;
  }

  /**
   * A JavaScript `Date`: a time value in milliseconds since the epoch, or the
   * invalid date that `new Date('')` builds (its time value is NaN).
   */
  datatype JsDate = Time(ms: int) | InvalidDate

  /**
   * One project card. `readme`, `license` and the two loading flags are the
   * fields that hydration fills in; every other field is fixed once built.
   */
  datatype Projet = Projet(
    id: int,
    logo: string,
    titre: string,
    description: string,
    etat: Etat,
    dateCreation: JsDate,
    dateMAJ: JsDate,
    git: Option<string>,
    result: Option<string>,
    gitUrl: Nullable<string>,
    liveUrl: Nullable<string>,
    readme: Nullable<string>,
    license: Nullable<string>,
    readmeLoading: Option<bool>,
    licenseLoading: Option<bool>)
}
