/**
 * UNIQUE_KEYS of the in-memory store, as it stands (__tests__/helpers/memory-db.ts:288-362).
 */
module StoreKeys {
  import opened Store
  import opened StoreSafety

  /** The models that have an entry. */
  datatype Model =
    | LegacyCampaignMigration
    | LegacyMigrationSample
    | InstagramEvent
    | TriggerExecution
    | InstagramContact
    | TriggerConversation
    | TriggerMessage
    | JavobAiAccount
    | AiConversationState
    | AiScoreEvent
    | AiContactMemory
    | AiLeadInsight
    | AiIntentPolicy
    | AiDraft
    | CommentModeration
    | ChannelCredential
    | TelegramChannel
    | TelegramBusinessConnection
    | ChannelMessage
    | ChannelPostTarget
    | ChannelPrivateReply
    | ChannelAutoReplyLog
    | AdAccount
    | AdProposal
    | AdSpendDay
    | AdReferral
    | CapiEvent
    | Payment
    | ContentPostStat
    | ContentAnalysis
    | ContentReport
    | CrmContact
    | CrmTag
    | CrmContactTag
    | CrmPipeline
    | CrmStage
    | CrmDeal
    | CrmActivity
    | CrmSyncCursor
    | CrmBroadcastRecipient
    | OutboundEvent
    | OutboundDelivery
    | IntegrationSubscription
    | FlowVersion
    | ScheduledPost
    | ScheduledPostMedia
    | FlowRun
    | FlowRunStep
    | Flow
    | AnalyticsDaily
    | AnalyticsAlertState
    | GiveawayEntry
    | GiveawayDraw
    | ReferralProgram
    | ReferralCode
    | ReferralEvent
    | EngagementSettings
    | EngagementPoint
    | GiveawayNotification
    | EngagementBadge
    | MigrationItem
    | McpToken

  function UniqueKeys(m: Model): seq<Key> {
    match m
    case LegacyCampaignMigration => [["automationId"]]
    case LegacyMigrationSample => [["migrationId", "commentId"]]
    case InstagramEvent => [["instagramAccountId", "messageId"]]
    case TriggerExecution => [["eventId", "campaignId"]]
    case InstagramContact => [["instagramAccountId", "igUserId"]]
    case TriggerConversation => [["contactId"]]
    case TriggerMessage => [["conversationId", "mid"]]
    case JavobAiAccount => [["instagramAccountId"]]
    case AiConversationState => [["conversationId"]]
    case AiScoreEvent => [["stateId", "leadCycle", "signal"]]
    case AiContactMemory => [["instagramAccountId", "igUserId"]]
    case AiLeadInsight => [["leadId"]]
    case AiIntentPolicy => [["instagramAccountId", "intent"]]
    case AiDraft => [["shadowTurnId"]]
    case CommentModeration => [["commentId"]]
    case ChannelCredential => [["workspaceId", "channel", "externalAccountId"]]
    case TelegramChannel => [["chatId"], ["dmChatId"]]
    case TelegramBusinessConnection => [["connectionId"]]
    case ChannelMessage => [["channel", "chatId", "externalId"]]
    case ChannelPostTarget => [["postId", "channel", "accountRef"]]
    case ChannelPrivateReply => [["channel", "commentId"]]
    case ChannelAutoReplyLog => [["messageId"]]
    case AdAccount => [["workspaceId", "adAccountId"]]
    case AdProposal => [["accountId", "kind", "igMediaId"]]
    case AdSpendDay => [["proposalId", "date"]]
    case AdReferral => [["instagramAccountId", "igUserId", "adId"]]
    case CapiEvent => [["dealId", "eventName"]]
    case Payment => [["provider", "providerTransId"]]
    case ContentPostStat => [["instagramAccountId", "igMediaId"]]
    case ContentAnalysis => [["statId"]]
    case ContentReport => [["instagramAccountId", "weekStart"]]
    case CrmContact => [["instagramAccountId", "igUserId"], ["conversationId"], ["instagramContactId"]]
    case CrmTag => [["workspaceId", "slug"]]
    case CrmContactTag => [["contactId", "tagId"]]
    case CrmPipeline => [["workspaceId", "name"]]
    case CrmStage => [["pipelineId", "name"]]
    case CrmDeal => [["leadId"]]
    case CrmActivity => [["sourceTable", "sourceId", "type"]]
    case CrmSyncCursor => [["source"]]
    case CrmBroadcastRecipient => [["broadcastId", "contactId"]]
    case OutboundEvent => [["workspaceId", "dedupeKey"]]
    case OutboundDelivery => [["eventId", "integrationId"]]
    case IntegrationSubscription => [["integrationId", "eventType"]]
    case FlowVersion => [["flowId", "version"]]
    case ScheduledPost => [["igMediaId"]]
    case ScheduledPostMedia => [["postId", "position"]]
    case FlowRun => [["executionId"]]
    case FlowRunStep => [["runId", "seq"]]
    case Flow => [["proxyCampaignId"], ["publishedVersionId"], ["draftVersionId"]]
    case AnalyticsDaily => [["workspaceId", "instagramAccountId", "day", "metric", "dimKind", "dimId"]]
    case AnalyticsAlertState => [["workspaceId", "rule"]]
    case GiveawayEntry => [["giveawayId", "igUserId"]]
    case GiveawayDraw => [["giveawayId", "sequence"]]
    case ReferralProgram => [["instagramAccountId"]]
    case ReferralCode => [["instagramAccountId", "code"], ["programId", "igUserId"]]
    case ReferralEvent => [["programId", "refereeIgUserId"]]
    case EngagementSettings => [["workspaceId"]]
    case EngagementPoint => [["sourceTable", "sourceId", "reason"]]
    case GiveawayNotification => [["giveawayId", "entryId", "channel"]]
    case EngagementBadge => [["contactId", "badgeKey"]]
    case MigrationItem => [["projectId", "kind", "sourceId"]]
    case McpToken => [["tokenHash"]]
  }

  /** No column of the table begins with the letter of "updatedAt". */
  predicate NoStampColumn(key: Key) { forall k :: k in key ==> |k| > 0 && k[0] != 'u' }

  lemma OneKeyIsWellFormed(key: Key)
    requires NoStampColumn(key)
    ensures WellFormedKeys([key])
  {
    assert "updatedAt"[0] == 'u';
  }

  /** Each key has a column that no other key of the model has. */
  ghost predicate EachItsOwn(keys: seq<Key>) {
    forall a, b :: a in keys && b in keys && a != b ==> exists k :: k in a && k !in b
  }

  lemma OwnColumnsAreWellFormed(keys: seq<Key>)
    requires (forall key :: key in keys ==> NoStampColumn(key)) && EachItsOwn(keys)
    ensures WellFormedKeys(keys)
  {
    assert "updatedAt"[0] == 'u';
  }

  lemma FirstColumnsApart(keys: seq<Key>)
    requires forall i :: 0 <= i < |keys| ==> keys[i] != []
    requires forall i, j :: 0 <= i < |keys| && 0 <= j < |keys| && i != j ==> keys[i][0] !in keys[j]
    ensures EachItsOwn(keys)
  {
    forall a, b | a in keys && b in keys && a != b ensures exists k :: k in a && k !in b {
      assert a[0] in a && a[0] !in b;
    }
  }

  lemma TelegramChannelKeys()
    ensures WellFormedKeys(UniqueKeys(TelegramChannel))
  {
    var keys := UniqueKeys(TelegramChannel);
    assert |"chatId"| != |"dmChatId"|;
    FirstColumnsApart(keys);
    OwnColumnsAreWellFormed(keys);
  }

  lemma CrmContactKeys()
    ensures WellFormedKeys(UniqueKeys(CrmContact))
  {
    var keys := UniqueKeys(CrmContact);
    assert |"instagramAccountId"| == 18 && |"igUserId"| == 8 && |"conversationId"| == 14 && |"instagramContactId"| == 18;
    assert "instagramAccountId"[9] != "instagramContactId"[9];
    FirstColumnsApart(keys);
    OwnColumnsAreWellFormed(keys);
  }

  lemma FlowKeys()
    ensures WellFormedKeys(UniqueKeys(Flow))
  {
    var keys := UniqueKeys(Flow);
    assert |"proxyCampaignId"| == 15 && |"publishedVersionId"| == 18 && |"draftVersionId"| == 14;
    FirstColumnsApart(keys);
    OwnColumnsAreWellFormed(keys);
  }

  lemma ReferralCodeKeys()
    ensures WellFormedKeys(UniqueKeys(ReferralCode))
  {
    var keys := UniqueKeys(ReferralCode);
    assert |"instagramAccountId"| == 18 && |"code"| == 4 && |"programId"| == 9 && |"igUserId"| == 8;
    FirstColumnsApart(keys);
    OwnColumnsAreWellFormed(keys);
  }

  lemma FirstKeys(m: Model)
    ensures (m.LegacyCampaignMigration? || m.LegacyMigrationSample? || m.InstagramEvent? || m.TriggerExecution? ||
      m.InstagramContact? || m.TriggerConversation? || m.TriggerMessage? || m.JavobAiAccount? ||
      m.AiConversationState? || m.AiScoreEvent? || m.AiContactMemory? || m.AiLeadInsight? || m.AiIntentPolicy? ||
      m.AiDraft? || m.CommentModeration?) ==> WellFormedKeys(UniqueKeys(m))
  {
    hide WellFormedKeys;
    match m
    case LegacyCampaignMigration => OneKeyIsWellFormed(UniqueKeys(LegacyCampaignMigration)[0]);
    case LegacyMigrationSample => OneKeyIsWellFormed(UniqueKeys(LegacyMigrationSample)[0]);
    case InstagramEvent => OneKeyIsWellFormed(UniqueKeys(InstagramEvent)[0]);
    case TriggerExecution => OneKeyIsWellFormed(UniqueKeys(TriggerExecution)[0]);
    case InstagramContact => OneKeyIsWellFormed(UniqueKeys(InstagramContact)[0]);
    case TriggerConversation => OneKeyIsWellFormed(UniqueKeys(TriggerConversation)[0]);
    case TriggerMessage => OneKeyIsWellFormed(UniqueKeys(TriggerMessage)[0]);
    case JavobAiAccount => OneKeyIsWellFormed(UniqueKeys(JavobAiAccount)[0]);
    case AiConversationState => OneKeyIsWellFormed(UniqueKeys(AiConversationState)[0]);
    case AiScoreEvent => OneKeyIsWellFormed(UniqueKeys(AiScoreEvent)[0]);
    case AiContactMemory => OneKeyIsWellFormed(UniqueKeys(AiContactMemory)[0]);
    case AiLeadInsight => OneKeyIsWellFormed(UniqueKeys(AiLeadInsight)[0]);
    case AiIntentPolicy => OneKeyIsWellFormed(UniqueKeys(AiIntentPolicy)[0]);
    case AiDraft => OneKeyIsWellFormed(UniqueKeys(AiDraft)[0]);
    case CommentModeration => OneKeyIsWellFormed(UniqueKeys(CommentModeration)[0]);
    case _ =>
  }

  lemma SecondKeys(m: Model)
    ensures (m.ChannelCredential? || m.TelegramBusinessConnection? || m.ChannelMessage? || m.ChannelPostTarget? ||
      m.ChannelPrivateReply? || m.ChannelAutoReplyLog? || m.AdAccount? || m.AdProposal? || m.AdSpendDay? ||
      m.AdReferral? || m.CapiEvent? || m.Payment? || m.ContentPostStat? || m.ContentAnalysis? ||
      m.ContentReport?) ==> WellFormedKeys(UniqueKeys(m))
  {
    hide WellFormedKeys;
    match m
    case ChannelCredential => OneKeyIsWellFormed(UniqueKeys(ChannelCredential)[0]);
    case TelegramBusinessConnection => OneKeyIsWellFormed(UniqueKeys(TelegramBusinessConnection)[0]);
    case ChannelMessage => OneKeyIsWellFormed(UniqueKeys(ChannelMessage)[0]);
    case ChannelPostTarget => OneKeyIsWellFormed(UniqueKeys(ChannelPostTarget)[0]);
    case ChannelPrivateReply => OneKeyIsWellFormed(UniqueKeys(ChannelPrivateReply)[0]);
    case ChannelAutoReplyLog => OneKeyIsWellFormed(UniqueKeys(ChannelAutoReplyLog)[0]);
    case AdAccount => OneKeyIsWellFormed(UniqueKeys(AdAccount)[0]);
    case AdProposal => OneKeyIsWellFormed(UniqueKeys(AdProposal)[0]);
    case AdSpendDay => OneKeyIsWellFormed(UniqueKeys(AdSpendDay)[0]);
    case AdReferral => OneKeyIsWellFormed(UniqueKeys(AdReferral)[0]);
    case CapiEvent => OneKeyIsWellFormed(UniqueKeys(CapiEvent)[0]);
    case Payment => OneKeyIsWellFormed(UniqueKeys(Payment)[0]);
    case ContentPostStat => OneKeyIsWellFormed(UniqueKeys(ContentPostStat)[0]);
    case ContentAnalysis => OneKeyIsWellFormed(UniqueKeys(ContentAnalysis)[0]);
    case ContentReport => OneKeyIsWellFormed(UniqueKeys(ContentReport)[0]);
    case _ =>
  }

  lemma ThirdKeys(m: Model)
    ensures (m.CrmTag? || m.CrmContactTag? || m.CrmPipeline? || m.CrmStage? || m.CrmDeal? || m.CrmActivity? ||
      m.CrmSyncCursor? || m.CrmBroadcastRecipient? || m.OutboundEvent? || m.OutboundDelivery? ||
      m.IntegrationSubscription? || m.FlowVersion? || m.ScheduledPost? || m.ScheduledPostMedia? ||
      m.FlowRun?) ==> WellFormedKeys(UniqueKeys(m))
  {
    hide WellFormedKeys;
    match m
    case CrmTag => OneKeyIsWellFormed(UniqueKeys(CrmTag)[0]);
    case CrmContactTag => OneKeyIsWellFormed(UniqueKeys(CrmContactTag)[0]);
    case CrmPipeline => OneKeyIsWellFormed(UniqueKeys(CrmPipeline)[0]);
    case CrmStage => OneKeyIsWellFormed(UniqueKeys(CrmStage)[0]);
    case CrmDeal => OneKeyIsWellFormed(UniqueKeys(CrmDeal)[0]);
    case CrmActivity => OneKeyIsWellFormed(UniqueKeys(CrmActivity)[0]);
    case CrmSyncCursor => OneKeyIsWellFormed(UniqueKeys(CrmSyncCursor)[0]);
    case CrmBroadcastRecipient => OneKeyIsWellFormed(UniqueKeys(CrmBroadcastRecipient)[0]);
    case OutboundEvent => OneKeyIsWellFormed(UniqueKeys(OutboundEvent)[0]);
    case OutboundDelivery => OneKeyIsWellFormed(UniqueKeys(OutboundDelivery)[0]);
    case IntegrationSubscription => OneKeyIsWellFormed(UniqueKeys(IntegrationSubscription)[0]);
    case FlowVersion => OneKeyIsWellFormed(UniqueKeys(FlowVersion)[0]);
    case ScheduledPost => OneKeyIsWellFormed(UniqueKeys(ScheduledPost)[0]);
    case ScheduledPostMedia => OneKeyIsWellFormed(UniqueKeys(ScheduledPostMedia)[0]);
    case FlowRun => OneKeyIsWellFormed(UniqueKeys(FlowRun)[0]);
    case _ =>
  }

  lemma FourthKeys(m: Model)
    ensures (m.FlowRunStep? || m.AnalyticsDaily? || m.AnalyticsAlertState? || m.GiveawayEntry? || m.GiveawayDraw? ||
      m.ReferralProgram? || m.ReferralEvent? || m.EngagementSettings? || m.EngagementPoint? ||
      m.GiveawayNotification? || m.EngagementBadge? || m.MigrationItem? ||
      m.McpToken?) ==> WellFormedKeys(UniqueKeys(m))
  {
    hide WellFormedKeys;
    match m
    case FlowRunStep => OneKeyIsWellFormed(UniqueKeys(FlowRunStep)[0]);
    case AnalyticsDaily => OneKeyIsWellFormed(UniqueKeys(AnalyticsDaily)[0]);
    case AnalyticsAlertState => OneKeyIsWellFormed(UniqueKeys(AnalyticsAlertState)[0]);
    case GiveawayEntry => OneKeyIsWellFormed(UniqueKeys(GiveawayEntry)[0]);
    case GiveawayDraw => OneKeyIsWellFormed(UniqueKeys(GiveawayDraw)[0]);
    case ReferralProgram => OneKeyIsWellFormed(UniqueKeys(ReferralProgram)[0]);
    case ReferralEvent => OneKeyIsWellFormed(UniqueKeys(ReferralEvent)[0]);
    case EngagementSettings => OneKeyIsWellFormed(UniqueKeys(EngagementSettings)[0]);
    case EngagementPoint => OneKeyIsWellFormed(UniqueKeys(EngagementPoint)[0]);
    case GiveawayNotification => OneKeyIsWellFormed(UniqueKeys(GiveawayNotification)[0]);
    case EngagementBadge => OneKeyIsWellFormed(UniqueKeys(EngagementBadge)[0]);
    case MigrationItem => OneKeyIsWellFormed(UniqueKeys(MigrationItem)[0]);
    case McpToken => OneKeyIsWellFormed(UniqueKeys(McpToken)[0]);
    case _ =>
  }

  /** Every entry meets what the results on uniqueness ask of a model's keys. */
  lemma RealKeysAreWellFormed(m: Model)
    ensures WellFormedKeys(UniqueKeys(m))
  {
    hide WellFormedKeys, UniqueKeys;
    FirstKeys(m);
    SecondKeys(m);
    ThirdKeys(m);
    FourthKeys(m);
    match m
    case TelegramChannel => TelegramChannelKeys();
    case CrmContact => CrmContactKeys();
    case Flow => FlowKeys();
    case ReferralCode => ReferralCodeKeys();
    case _ =>
  }

  /** Each model of the schema has keys as some model of the table has them. */
  ghost predicate FromTable(s: Schema) {
    forall model :: model in s.keys ==> exists m: Model :: s.keys[model] == UniqueKeys(m)
  }

  lemma TableSchemaIsWellFormed(s: Schema, model: string)
    requires FromTable(s)
    ensures WellFormedKeys(KeysOf(s, model))
  {
    hide UniqueKeys;
    if model in s.keys {
      var m :| s.keys[model] == UniqueKeys(m);
      RealKeysAreWellFormed(m);
    }
  }

  /** With the store's own keys, every run of safe calls from the empty store keeps them all. */
  lemma EveryRunOfTheStoreIsUnique(s: Schema, ops: seq<Op>)
    requires FromTable(s) && forall op :: op in ops ==> SafeOp(s, op)
    ensures forall model :: Unique(KeysOf(s, model), RowsOf(Run(s, EMPTY_DB, ops), model))
  {
    hide FromTable, WellFormedKeys, SafeOp, Run, Unique;
    forall model ensures WellFormedKeys(KeysOf(s, model)) {
      TableSchemaIsWellFormed(s, model);
    }
    EveryReachableStateIsUnique(s, ops);
  }
}
