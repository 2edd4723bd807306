/**
 * The configuration document the page edits (`configs.json`): user id to that user's
 * configuration, each with four sub-collections.
 */
module Config {
  import opened Wrappers
  import opened JsObject

  /** The value of a global keyword: its discount in percent. */
  datatype KeywordConfig = KeywordConfig(discount: int)

  /** One keyword of a channel's override list. */
  datatype ChannelKeyword = ChannelKeyword(keyword: string, discount: int)

  /** A blacklisted channel in its structured form. */
  datatype BlacklistedChannel = BlacklistedChannel(channelId: string, nickname: string)

  /** An element of `blacklisted_channels`: a bare id written by older versions, or a structured entry. */
  datatype BlacklistEntry = LegacyId(id: string) | Structured(channel: BlacklistedChannel)

  /** One user's configuration, with its four sub-collections. */
  datatype UserConfig = UserConfig(
    globalKeywords: Record<KeywordConfig>,
    channelKeywords: Record<seq<ChannelKeyword>>,
    negativeKeywords: seq<string>,
    blacklistedChannels: seq<BlacklistEntry>)

  /** The whole document: user id to configuration. */
  type ConfigData = Record<UserConfig>

  /** Both keyed sub-collections hold each key once, as a parsed JSON object does. */
  predicate UserWellFormed(u: UserConfig) {
    DistinctKeys(u.globalKeywords) && DistinctKeys(u.channelKeywords)
  }

  predicate WellFormed(doc: ConfigData) {
    DistinctKeys(doc) && forall p :: p in doc ==> UserWellFormed(p.value)
  }

  /** Replacing one user with a well-formed configuration keeps the document well formed. */
  lemma AssignWellFormed(doc: ConfigData, userId: string, u: UserConfig)
    requires WellFormed(doc) && UserWellFormed(u)
    ensures WellFormed(Assign(doc, userId, u))
  {
    AssignDistinct(doc, userId, u);
    AssignProps(doc, userId, u);
  }

  /**
   * How the blacklist shows an element: a legacy bare id becomes an entry whose id and
   * nickname are both that string; a structured entry is shown as it is.
   */
  function ChannelData(e: BlacklistEntry): (c: BlacklistedChannel)
    ensures e.Structured? ==> c == e.channel
    ensures e.LegacyId? ==> c.channelId == e.id == c.nickname
  {
    match e
    case LegacyId(s) => BlacklistedChannel(s, s)
    case Structured(c) => c
  }
}
