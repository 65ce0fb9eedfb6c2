/** The provider connection settings and the choice of base URL by environment. */
module Config {
  import opened JavaLang

  /** Declared and bound from configuration, never read by any operation. */
  datatype RateLimit = RateLimit(maxRequests: int, timeWindow: int)

  /** The settings bound under `openapi.firma`; each string may be absent (null). */
  datatype OpenApiConfig = OpenApiConfig(
    sandboxBaseUrl: Option<string>,
    productionBaseUrl: Option<string>,
    apiKey: Option<string>,
    environment: Option<string>,
    rateLimit: RateLimit)

  const ProductionName := "production"

  /** `"production".equalsIgnoreCase(environment)`. */
  predicate IsProduction(environment: Option<string>) {
    EqualsIgnoreCase(ProductionName, environment)
  }

  /** `getActiveBaseUrl()`: the production URL for the production environment, the sandbox URL otherwise. */
  function ActiveBaseUrl(c: OpenApiConfig): (r: Option<string>)
    ensures IsProduction(c.environment) ==> r == c.productionBaseUrl
    ensures !IsProduction(c.environment) ==> r == c.sandboxBaseUrl
  {
    if IsProduction(c.environment) then c.productionBaseUrl else c.sandboxBaseUrl
  }

  /** How one character may spell a lower-case ASCII letter under `equalsIgnoreCase`: the letter
      itself, its capital, either Turkish i for 'i', the long s for 's' or the Kelvin sign for 'k'. */
  predicate SpellsLetter(c: char, letter: char) {
    || c == letter
    || c as int == letter as int - 32
    || (letter == 'i' && (c == '\U{0131}' || c == '\U{0130}'))
    || (letter == 's' && c == '\U{017F}')
    || (letter == 'k' && c == '\U{212A}')
  }

  /** For every lower-case ASCII letter, `equalsIgnoreCase` matches exactly the characters that spell it. */
  lemma CharMatchesLetter(letter: char, c: char)
    requires 'a' <= letter <= 'z'
    ensures CharEqualsIgnoreCase(letter, c) <==> SpellsLetter(c, letter)
  {
  }

  /** The environment selects production exactly when it is ten characters, each an upper- or
      lower-case letter of "production" in order, where either Turkish i also stands for 'i'. */
  lemma IsProductionIff(environment: Option<string>)
    ensures IsProduction(environment) <==>
      && environment.Some?
      && |environment.value| == |ProductionName|
      && forall i :: 0 <= i < |ProductionName| ==> SpellsLetter(environment.value[i], ProductionName[i])
  {
    forall i | 0 <= i < |ProductionName|
      ensures 'a' <= ProductionName[i] <= 'z'
    {
    }
    if environment.Some? && |environment.value| == |ProductionName| {
      forall i | 0 <= i < |ProductionName|
        ensures CharEqualsIgnoreCase(ProductionName[i], environment.value[i]) <==> SpellsLetter(environment.value[i], ProductionName[i])
      {
        CharMatchesLetter(ProductionName[i], environment.value[i]);
      }
    }
  }

  /** Upper case, mixed case and the dotless i all select production; a null, an abbreviation
      or a padded value falls back to the sandbox. */
  lemma EnvironmentExamples(c: OpenApiConfig)
    ensures c.environment == Some("PRODUCTION") ==> ActiveBaseUrl(c) == c.productionBaseUrl
    ensures c.environment == Some("Production") ==> ActiveBaseUrl(c) == c.productionBaseUrl
    ensures c.environment == Some("product\U{0131}on") ==> ActiveBaseUrl(c) == c.productionBaseUrl
    ensures c.environment.None? ==> ActiveBaseUrl(c) == c.sandboxBaseUrl
    ensures c.environment == Some("prod") ==> ActiveBaseUrl(c) == c.sandboxBaseUrl
    ensures c.environment == Some(" production") ==> ActiveBaseUrl(c) == c.sandboxBaseUrl
  {
    IsProductionIff(c.environment);
  }

  /** The base URL depends on the environment and the two configured URLs only. */
  lemma ActiveBaseUrlIndependent(c: OpenApiConfig, apiKey: Option<string>, rateLimit: RateLimit)
    ensures ActiveBaseUrl(c.(apiKey := apiKey, rateLimit := rateLimit)) == ActiveBaseUrl(c)
    ensures ActiveBaseUrl(c) == c.productionBaseUrl || ActiveBaseUrl(c) == c.sandboxBaseUrl
  {
  }
}
