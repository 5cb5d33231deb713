/**
 * vip.py: the VIP registry. In the source these are module-level sets and
 * dicts; here they are the fields of one `VipStore`. `datetime.now()` is the
 * parameter `now`, an opaque instant.
 */
module Vip {
  import opened Wrappers

  const DefaultAvatar := "🤖"
  const VipIcon := "💎"

  /** An instant as returned by `datetime.now()`; only stored and handed back. */
  type Instant = int

  class VipStore {
    var vipUsers: set<int>
    var vipUsernames: set<string>
    var avatars: map<int, string>
    var signatures: map<int, string>
    var vipUserMap: map<int, string>
    var subscriptions: map<int, Instant>

    /** Every registered name belongs to a VIP, and every VIP has a subscription start. */
    ghost predicate Valid()
      reads this
    {
      && (forall u :: u in vipUserMap ==> u in vipUsers && vipUserMap[u] in vipUsernames)
      && (forall u :: u in vipUsers <==> u in subscriptions)
    }

    constructor ()
      ensures Valid()
      ensures vipUsers == {} && vipUsernames == {} && avatars == map[] && signatures == map[]
      ensures vipUserMap == map[] && subscriptions == map[]
    {
      vipUsers, vipUsernames := {}, {};
      avatars, signatures, vipUserMap, subscriptions := map[], map[], map[], map[];
    }

    /** `is_vip` */
    predicate IsVip(userId: int)
      reads this
    {
      userId in vipUsers
    }

    /** `is_vip_by_username` */
    predicate IsVipByUsername(username: string)
      reads this
    {
      username in vipUsernames
    }

    /** `get_avatar`: the stored emoji, or the robot face. */
    function GetAvatar(userId: int): (emoji: string)
      reads this
      ensures userId in avatars ==> emoji == avatars[userId]
      ensures userId !in avatars ==> emoji == DefaultAvatar
    {
      if userId in avatars then avatars[userId] else DefaultAvatar
    }

    /** `get_signature`: the stored text, or the empty string. */
    function GetSignature(userId: int): (text: string)
      reads this
      ensures userId in signatures ==> text == signatures[userId]
      ensures userId !in signatures ==> text == ""
    {
      if userId in signatures then signatures[userId] else ""
    }

    /** `get_subscription_time`: `None` for a user never made VIP. */
    function GetSubscriptionTime(userId: int): (t: Option<Instant>)
      reads this
      ensures t.Some? <==> userId in subscriptions
      ensures Valid() ==> (t.Some? <==> IsVip(userId))
      ensures t.Some? ==> t.value == subscriptions[userId]
    {
      if userId in subscriptions then Some(subscriptions[userId]) else None
    }

    /**
     * `add_vip`: the user becomes VIP with a subscription starting `now`; a
     * username that is present and non-empty is recorded for the user and
     * becomes a VIP name. Avatars and signatures are untouched.
     */
    method AddVip(userId: int, username: Option<string>, now: Instant)
      requires Valid()
      modifies this
      ensures Valid()
      ensures IsVip(userId) && GetSubscriptionTime(userId) == Some(now)
      ensures vipUsers == old(vipUsers) + {userId}
      ensures subscriptions == old(subscriptions)[userId := now]
      ensures username.Some? && username.value != "" ==>
                && vipUserMap == old(vipUserMap)[userId := username.value]
                && vipUsernames == old(vipUsernames) + {username.value}
                && IsVipByUsername(username.value)
      ensures username.None? || username.value == "" ==>
                vipUserMap == old(vipUserMap) && vipUsernames == old(vipUsernames)
      ensures avatars == old(avatars) && signatures == old(signatures)
    {
      vipUsers := vipUsers + {userId};
      subscriptions := subscriptions[userId := now];
      if username.Some? && username.value != "" {
        vipUserMap := vipUserMap[userId := username.value];
        vipUsernames := vipUsernames + {username.value};
      }
    }

    /** `set_avatar`: the user's avatar is now `emoji`; every other user keeps theirs. */
    method SetAvatar(userId: int, emoji: string)
      modifies this
      ensures GetAvatar(userId) == emoji
      ensures forall other :: other != userId ==> GetAvatar(other) == old(GetAvatar(other))
      ensures avatars == old(avatars)[userId := emoji]
      ensures vipUsers == old(vipUsers) && vipUsernames == old(vipUsernames) && signatures == old(signatures)
      ensures vipUserMap == old(vipUserMap) && subscriptions == old(subscriptions)
    {
      avatars := avatars[userId := emoji];
    }

    /** `set_signature`: the user's signature is now `text`; every other user keeps theirs. */
    method SetSignature(userId: int, text: string)
      modifies this
      ensures GetSignature(userId) == text
      ensures forall other :: other != userId ==> GetSignature(other) == old(GetSignature(other))
      ensures signatures == old(signatures)[userId := text]
      ensures vipUsers == old(vipUsers) && vipUsernames == old(vipUsernames) && avatars == old(avatars)
      ensures vipUserMap == old(vipUserMap) && subscriptions == old(subscriptions)
    {
      signatures := signatures[userId := text];
    }
  }
}
