/**
 * The rows of the bot's database and their column defaults, and the
 * numeric configuration constants. Times are whole seconds.
 */
module Records {
  import opened Base

  // Configuration constants.
  const POINTS_PER_REFERRAL := 5
  const DAILY_GIFT_POINTS := 3
  const POINTS_PER_CHANNEL_SUB := 2
  const MIN_POINTS_FOR_FUNDING := 25
  const POINTS_PER_MEMBER := 25
  /** Declared but never consulted by any handler. */
  const MAX_MEMBERS_PER_REQUEST := 50
  const ADD_MEMBERS_DELAY := 1

  /** The bootstrap administrator that database initialisation creates. */
  const BOOTSTRAP_ADMIN_ID := 6130994941
  const SECONDS_PER_DAY := 86400
  const DEFAULT_MAINTENANCE_MESSAGE := "البوت تحت الصيانة حالياً"
  const BOOTSTRAP_ADMIN_NAME := "مدير النظام"

  /** The `status` column of a funding request. */
  datatype Status = Pending | Approved | Rejected | Completed | Failed

  datatype User = User(
    userId: int,
    username: Option<string>,
    firstName: Option<string>,
    lastName: Option<string>,
    points: int,
    referrals: int,
    referredBy: Option<int>,
    isBanned: bool,
    banReason: Option<string>,
    isAdmin: bool,
    adminPermissions: string,
    lastDailyGift: Option<int>,
    createdAt: int)

  datatype GroupSource = GroupSource(
    id: int,
    groupId: string,
    groupUsername: Option<string>,
    groupTitle: Option<string>,
    isPrivate: bool,
    memberCount: int,
    addedByAdmin: Option<int>,
    isActive: bool,
    createdAt: int)

  datatype FundingRequest = FundingRequest(
    id: int,
    userId: int,
    targetChannel: string,
    targetType: string,
    requestedMembers: int,
    pointsCost: int,
    status: Status,
    approvedBy: Option<int>,
    completedMembers: int,
    notes: Option<string>,
    createdAt: int,
    updatedAt: int)

  /** A recorded transfer; no handler of the modelled core writes one. */
  datatype PointsTransfer = PointsTransfer(
    id: int,
    fromUserId: int,
    toUserId: int,
    amount: int,
    feePercent: int,
    feeAmount: int,
    netAmount: int,
    transferDate: int)

  datatype SystemSettings = SystemSettings(
    maintenanceMode: bool,
    maintenanceMessage: string,
    transferEnabled: bool,
    transferFeePercent: int,
    updatedBy: Option<int>,
    updatedAt: int)

  datatype PointsSettings = PointsSettings(
    pointsPerMember: int,
    pointsPerReferral: int,
    dailyGiftPoints: int,
    pointsPerChannel: int,
    minPointsForFunding: int,
    updatedBy: Option<int>,
    updatedAt: int)

  /** A user row as first inserted: every column not given takes its default. */
  function NewUser(userId: int, username: Option<string>, firstName: Option<string>,
                   lastName: Option<string>, now: int): (u: User)
    ensures u.userId == userId && u.username == username
    ensures u.firstName == firstName && u.lastName == lastName
    ensures u.points == 0 && u.referrals == 0 && u.referredBy.None?
    ensures !u.isBanned && u.banReason.None? && !u.isAdmin && u.adminPermissions == "[]"
    ensures u.lastDailyGift.None? && u.createdAt == now
  {
    User(userId, username, firstName, lastName, 0, 0, None, false, None, false, "[]", None, now)
  }

  /** A group source row as first inserted. */
  function NewGroupSource(id: int, groupId: string, groupUsername: Option<string>,
                          groupTitle: Option<string>, addedByAdmin: Option<int>, now: int): (g: GroupSource)
    ensures g.id == id && g.groupId == groupId && g.groupUsername == groupUsername
    ensures g.groupTitle == groupTitle && g.addedByAdmin == addedByAdmin
    ensures g.isActive && !g.isPrivate && g.memberCount == 0 && g.createdAt == now
  {
    GroupSource(id, groupId, groupUsername, groupTitle, false, 0, addedByAdmin, true, now)
  }

  /** A funding request row as first inserted: pending, nothing delivered, nobody approved it yet. */
  function NewFundingRequest(id: int, userId: int, targetChannel: string, targetType: string,
                             requestedMembers: int, pointsCost: int, now: int): (r: FundingRequest)
    ensures r.id == id && r.userId == userId && r.targetChannel == targetChannel
    ensures r.targetType == targetType && r.requestedMembers == requestedMembers
    ensures r.pointsCost == pointsCost
    ensures r.status == Pending && r.completedMembers == 0 && r.approvedBy.None? && r.notes.None?
    ensures r.createdAt == now && r.updatedAt == now
  {
    FundingRequest(id, userId, targetChannel, targetType, requestedMembers, pointsCost,
                   Pending, None, 0, None, now, now)
  }

  /** The system settings row as seeded: maintenance off, transfers on, a 5% fee. */
  function DefaultSystemSettings(now: int): (s: SystemSettings)
    ensures !s.maintenanceMode && s.transferEnabled && s.transferFeePercent == 5
    ensures s.maintenanceMessage == DEFAULT_MAINTENANCE_MESSAGE
    ensures s.updatedBy.None? && s.updatedAt == now
  {
    SystemSettings(false, DEFAULT_MAINTENANCE_MESSAGE, true, 5, None, now)
  }

  /** The points settings row as seeded. */
  function DefaultPointsSettings(now: int): (s: PointsSettings)
    ensures s.pointsPerMember == 25 && s.pointsPerReferral == 5 && s.dailyGiftPoints == 3
    ensures s.pointsPerChannel == 2 && s.minPointsForFunding == 25
    ensures s.updatedBy.None? && s.updatedAt == now
  {
    PointsSettings(25, 5, 3, 2, 25, None, now)
  }

  /** The seeded defaults agree with the configuration constants. */
  lemma DefaultsMatchConfig(now: int)
    ensures DefaultPointsSettings(now).pointsPerMember == POINTS_PER_MEMBER
    ensures DefaultPointsSettings(now).pointsPerReferral == POINTS_PER_REFERRAL
    ensures DefaultPointsSettings(now).dailyGiftPoints == DAILY_GIFT_POINTS
    ensures DefaultPointsSettings(now).pointsPerChannel == POINTS_PER_CHANNEL_SUB
    ensures DefaultPointsSettings(now).minPointsForFunding == MIN_POINTS_FOR_FUNDING
  {
  }

  /** The bootstrap administrator row. */
  function BootstrapAdmin(now: int): (u: User)
    ensures u.userId == BOOTSTRAP_ADMIN_ID && u.isAdmin && u.adminPermissions == "[\"all\"]"
    ensures u.points == 0 && !u.isBanned && u.username == Some("admin")
  {
    NewUser(BOOTSTRAP_ADMIN_ID, Some("admin"), Some(BOOTSTRAP_ADMIN_NAME), None, now)
      .(isAdmin := true, adminPermissions := "[\"all\"]")
  }
}
