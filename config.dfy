/**
 * Config: the project settings the rule layer reads.
 *
 * The settings module itself is not part of this model, so every constant the
 * rules use is a field of a Settings value passed in by the caller.
 */
module Config {

  datatype Settings = Settings(
    lengDataUser: nat,        // LENG_DATA_USER: longest username
    lengEmail: nat,           // LENG_EMAIL: longest email
    lengMax: nat,             // LENG_MAX: longest name or text
    lengSlug: nat,            // LENG_SLUG: longest slug
    lengCut: nat,             // LENG_CUT: length `__str__` cuts names and texts to
    bannedNames: set<string>  // BANNED_NAMES: usernames signup refuses ("me")
  )
}
