/** Peers, settings, inputs, drafts, keyboards and reactions, as a sender writes
    them, constructor by constructor: what the skippers of `src/core/tl_skip.c` read of each, and that
    they refuse every other constructor. A field behind a flag is there when its bit is set; what is
    nested is given by its bytes. */
module WireParts {
  import opened Bytes
  import opened TlGrammar
  import opened Wires

  /** A Bool is read without looking at it. */
  lemma AnyBoolWire(c: uint32)
    ensures Reads(AnyBool, c, End)
  {
    hide Fit, Reads, Refuses, On, Skip;
    Rules(AnyBool);
  }

  lemma PeerBodies()
    ensures forall c: nat :: Body(Peer, c) == PeerBody(c)
  {
  }

  lemma PeerWire(c: uint32, id: uint64)
    // peerUser, peerChat, peerChannel
    ensures c in {0x59511722, 0x36c6019a, 0xa2a5371e} ==> Reads(Peer, c, L(id, End))
    ensures c !in {0x59511722, 0x36c6019a, 0xa2a5371e} ==> Refuses(Peer, c)
  {
    hide Fit, Reads, Refuses, On, Skip, Body;
    Rules(Peer);
    PeerBodies();
  }

  lemma NotificationSoundBodies()
    ensures forall c: nat :: Body(NotificationSound, c) == NotificationSoundBody(c)
  {
  }

  lemma NotificationSoundWire(c: uint32, id: uint64, title: bytes, data: bytes)
    // notificationSoundDefault, notificationSoundNone
    ensures c in {0x97e8bebe, 0x6f0c34df} ==> Reads(NotificationSound, c, End)
    // notificationSoundRingtone
    ensures Reads(NotificationSound, 0xff6c8049, L(id, End))
    // notificationSoundLocal
    ensures Reads(NotificationSound, 0x830b9ae4, S(title, S(data, End)))
    ensures c !in {0x97e8bebe, 0x6f0c34df, 0xff6c8049, 0x830b9ae4} ==> Refuses(NotificationSound, c)
  {
    hide Fit, Reads, Refuses, On, Skip, Body;
    Rules(NotificationSound);
    NotificationSoundBodies();
  }

  lemma PeerNotifySettingsBodies()
    ensures forall c: nat :: Body(PeerNotifySettings, c) == PeerNotifySettingsBody(c)
  {
  }

  lemma PeerNotifySettingsWire(c: uint32, flags: uint32, previews: bytes, silent: bytes, muteUntil: uint32,
                               ios: bytes, android: bytes, other: bytes, storiesMuted: bytes, storiesHide: bytes,
                               storiesIos: bytes, storiesAndroid: bytes, storiesOther: bytes)
    // peerNotifySettings, peerNotifySettings2
    ensures c in {0xa83b0426, 0x99622c0c} ==>
              Reads(PeerNotifySettings, c, I(flags, Opt(On(flags, 0), O(AnyBool, previews, End),
              Opt(On(flags, 1), O(AnyBool, silent, End), Opt(On(flags, 2), I(muteUntil, End),
              Opt(On(flags, 3), O(NotificationSound, ios, End), Opt(On(flags, 4), O(NotificationSound, android, End),
              Opt(On(flags, 5), O(NotificationSound, other, End), Opt(On(flags, 6), O(AnyBool, storiesMuted, End),
              Opt(On(flags, 7), O(AnyBool, storiesHide, End), Opt(On(flags, 8), O(NotificationSound, storiesIos, End),
              Opt(On(flags, 9), O(NotificationSound, storiesAndroid, End),
              Opt(On(flags, 10), O(NotificationSound, storiesOther, End), End)))))))))))))
  {
    hide Fit, Reads, Refuses, On, Skip, Body;
    Rules(PeerNotifySettings);
    PeerNotifySettingsBodies();
    if c in {0xa83b0426, 0x99622c0c} {
      FitReads(PeerNotifySettings, c, I(flags, Opt(On(flags, 0), O(AnyBool, previews, End),
        Opt(On(flags, 1), O(AnyBool, silent, End), Opt(On(flags, 2), I(muteUntil, End),
        Opt(On(flags, 3), O(NotificationSound, ios, End), Opt(On(flags, 4), O(NotificationSound, android, End),
        Opt(On(flags, 5), O(NotificationSound, other, End), Opt(On(flags, 6), O(AnyBool, storiesMuted, End),
        Opt(On(flags, 7), O(AnyBool, storiesHide, End), Opt(On(flags, 8), O(NotificationSound, storiesIos, End),
        Opt(On(flags, 9), O(NotificationSound, storiesAndroid, End),
        Opt(On(flags, 10), O(NotificationSound, storiesOther, End), End)))))))))))));
    }
  }

  lemma PeerNotifySettingsRefused(c: uint32)
    ensures c !in {0xa83b0426, 0x99622c0c} ==> Refuses(PeerNotifySettings, c)
  {
    hide Fit, Reads, Refuses, On, Skip, Body;
    Rules(PeerNotifySettings);
    PeerNotifySettingsBodies();
  }

  lemma InputPeerBodies()
    ensures forall c: nat :: Body(InputPeer, c) == InputPeerBody(c)
  {
  }

  lemma InputPeerWire(c: uint32, id: uint64, hash: uint64, peer: bytes, msgId: uint32)
    // inputPeerEmpty, inputPeerSelf
    ensures c in {0x7f3b18ea, 0x7da07ec9} ==> Reads(InputPeer, c, End)
    // inputPeerUser, inputPeerChannel
    ensures c in {0x7b8e7de6, 0x27bcbbfc} ==> Reads(InputPeer, c, L(id, L(hash, End)))
    // inputPeerChat
    ensures Reads(InputPeer, 0x35a95cb9, L(id, End))
    // inputPeerUserFromMessage, inputPeerChannelFromMessage
    ensures c in {0xa87b0a1c, 0xbd2a0840} ==> Reads(InputPeer, c, O(InputPeer, peer, I(msgId, L(id, End))))
    ensures c !in {0x7f3b18ea, 0x7da07ec9, 0x7b8e7de6, 0x27bcbbfc, 0x35a95cb9, 0xa87b0a1c, 0xbd2a0840} ==>
              Refuses(InputPeer, c)
  {
    hide Fit, Reads, Refuses, On, Skip, Body;
    Rules(InputPeer);
    InputPeerBodies();
  }

  lemma InputGeoPointBodies()
    ensures forall c: nat :: Body(InputGeoPoint, c) == InputGeoPointBody(c)
  {
  }

  lemma InputGeoPointWire(c: uint32, flags: uint32, lat: uint64, long: uint64, radius: uint32)
    // inputGeoPointEmpty
    ensures Reads(InputGeoPoint, 0xe4c123d6, End)
    // inputGeoPoint
    ensures Reads(InputGeoPoint, 0xf3b7acc9, I(flags, L(lat, L(long, Opt(On(flags, 0), I(radius, End), End)))))
    ensures c !in {0xe4c123d6, 0xf3b7acc9} ==> Refuses(InputGeoPoint, c)
  {
    hide Fit, Reads, Refuses, On, Skip, Body;
    Rules(InputGeoPoint);
    InputGeoPointBodies();
  }

  lemma InputPhotoBodies()
    ensures forall c: nat :: Body(InputPhoto, c) == InputPhotoBody(c)
  {
  }

  lemma InputPhotoWire(c: uint32, id: uint64, hash: uint64, reference: bytes)
    // inputPhotoEmpty
    ensures Reads(InputPhoto, 0x1cd7bf0d, L(id, End))
    // inputPhoto
    ensures Reads(InputPhoto, 0x3bb3b94a, L(id, L(hash, S(reference, End))))
    ensures c !in {0x1cd7bf0d, 0x3bb3b94a} ==> Refuses(InputPhoto, c)
  {
    hide Fit, Reads, Refuses, On, Skip, Body;
    Rules(InputPhoto);
    InputPhotoBodies();
  }

  lemma InputDocumentBodies()
    ensures forall c: nat :: Body(InputDocument, c) == InputDocumentBody(c)
  {
  }

  lemma InputDocumentWire(c: uint32, id: uint64, hash: uint64, reference: bytes)
    // inputDocumentEmpty
    ensures Reads(InputDocument, 0x72f0eafa, L(id, End))
    // inputDocument
    ensures Reads(InputDocument, 0x1abfb575, L(id, L(hash, S(reference, End))))
    ensures c !in {0x72f0eafa, 0x1abfb575} ==> Refuses(InputDocument, c)
  {
    hide Fit, Reads, Refuses, On, Skip, Body;
    Rules(InputDocument);
    InputDocumentBodies();
  }

  lemma InputUserBodies()
    ensures forall c: nat :: Body(InputUser, c) == InputUserBody(c)
  {
  }

  lemma InputUserWire(c: uint32, id: uint64, hash: uint64, peer: bytes, msgId: uint32)
    // inputUserEmpty, inputUserSelf
    ensures c in {0xb98886cf, 0xf7c1b13f} ==> Reads(InputUser, c, End)
    // inputUser
    ensures Reads(InputUser, 0xf21158c6, L(id, L(hash, End)))
    // inputUserFromMessage
    ensures Reads(InputUser, 0x1da448e2, O(InputPeer, peer, I(msgId, L(id, End))))
    ensures c !in {0xb98886cf, 0xf7c1b13f, 0xf21158c6, 0x1da448e2} ==> Refuses(InputUser, c)
  {
    hide Fit, Reads, Refuses, On, Skip, Body;
    Rules(InputUser);
    InputUserBodies();
  }

  lemma InputGameBodies()
    ensures forall c: nat :: Body(InputGame, c) == InputGameBody(c)
  {
  }

  lemma InputGameWire(c: uint32, id: uint64, hash: uint64, bot: bytes, shortName: bytes)
    // inputGameID
    ensures Reads(InputGame, 0x032c3e77, L(id, L(hash, End)))
    // inputGameShortName
    ensures Reads(InputGame, 0xc331e80a, O(InputUser, bot, S(shortName, End)))
    ensures c !in {0x032c3e77, 0xc331e80a} ==> Refuses(InputGame, c)
  {
    hide Fit, Reads, Refuses, On, Skip, Body;
    Rules(InputGame);
    InputGameBodies();
  }

  lemma InputMediaBodies()
    ensures forall c: nat :: Body(InputMedia, c) == InputMediaBody(c)
  {
  }

  lemma InputMediaWire1(flags: uint32, photo: bytes, ttl: uint32, geo: bytes, phone: bytes, firstName: bytes,
                        lastName: bytes, vcard: bytes, document: bytes, query: bytes)
    // inputMediaEmpty
    ensures Reads(InputMedia, 0x9664f57f, End)
    // inputMediaPhoto
    ensures Reads(InputMedia, 0xb3ba0635, I(flags, O(InputPhoto, photo, Opt(On(flags, 0), I(ttl, End), End))))
    // inputMediaGeoPoint
    ensures Reads(InputMedia, 0xf9c44144, O(InputGeoPoint, geo, End))
    // inputMediaContact
    ensures Reads(InputMedia, 0xf8ab7dfb, S(phone, S(firstName, S(lastName, S(vcard, End)))))
    // inputMediaDocument
    ensures Reads(InputMedia, 0x33473058, I(flags, O(InputDocument, document, Opt(On(flags, 0), I(ttl, End),
            Opt(On(flags, 1), S(query, End), End)))))
  {
    hide Fit, Reads, Refuses, On, Skip, Body;
    Rules(InputMedia);
    InputMediaBodies();
  }

  lemma InputMediaWire2(geo: bytes, title: bytes, address: bytes, provider: bytes, venueId: bytes, venueType: bytes,
                        flags: uint32, heading: uint32, period: uint32, radius: uint32, game: bytes, emoticon: bytes,
                        peer: bytes, storyId: uint32)
    // inputMediaVenue
    ensures Reads(InputMedia, 0xc13d1c11, O(InputGeoPoint, geo, S(title, S(address, S(provider, S(venueId,
            S(venueType, End)))))))
    // inputMediaGeoLive
    ensures Reads(InputMedia, 0x971fa843, I(flags, O(InputGeoPoint, geo, Opt(On(flags, 2), I(heading, End), I(period,
            Opt(On(flags, 3), I(radius, End), End))))))
    // inputMediaGame
    ensures Reads(InputMedia, 0xd33f43f3, O(InputGame, game, End))
    // inputMediaDice
    ensures Reads(InputMedia, 0xe66fbf7b, S(emoticon, End))
    // inputMediaStory
    ensures Reads(InputMedia, 0x89fdd778, O(InputPeer, peer, I(storyId, End)))
  {
    hide Fit, Reads, Refuses, On, Skip, Body;
    Rules(InputMedia);
    InputMediaBodies();
  }

  lemma InputMediaWire3(c: uint32, flags: uint32, url: bytes, extra: bytes, poll: bytes, correct: seq<bytes>,
                        solution: bytes, entities: seq<bytes>, stars: uint64, media: seq<bytes>, ttl: uint32)
    // inputMediaWebPage
    ensures Reads(InputMedia, 0xc21b8849, I(flags, S(url, Opt(On(flags, 4), S(extra, End), End))))
    // inputMediaPoll
    ensures Reads(InputMedia, 0x261e868f, I(flags, O(Poll, poll, Opt(On(flags, 0), V(AString, correct, End),
            Opt(On(flags, 1), S(solution, End), Opt(On(flags, 2), V(AnObject(Entity), entities, End), End))))))
    // inputMediaPaidMedia
    ensures Reads(InputMedia, 0x6519cb78, L(stars, V(AnObject(InputMedia), media, End)))
    // inputMediaPhotoExternal, inputMediaDocumentExternal
    ensures c in {0xe5bbfe1a, 0xfb52dc99} ==>
              Reads(InputMedia, c, I(flags, S(url, Opt(On(flags, 0), I(ttl, End), End))))
  {
    hide Fit, Reads, Refuses, On, Skip, Body;
    Rules(InputMedia);
    InputMediaBodies();
  }

  lemma InputMediaRefused(c: uint32)
    ensures c !in {0x9664f57f, 0xb3ba0635, 0xf9c44144, 0xf8ab7dfb, 0x33473058, 0xc13d1c11, 0x971fa843, 0xd33f43f3,
                   0xe66fbf7b, 0x89fdd778, 0xc21b8849, 0x261e868f, 0x6519cb78, 0xe5bbfe1a, 0xfb52dc99} ==>
              Refuses(InputMedia, c)
  {
    hide Fit, Reads, Refuses, On, Skip, Body;
    Rules(InputMedia);
    InputMediaBodies();
  }

  lemma InputReplyToBodies()
    ensures forall c: nat :: Body(InputReplyTo, c) == InputReplyToBody(c)
  {
  }

  lemma InputReplyToWire(c: uint32, flags: uint32, msgId: uint32, topId: uint32, peer: bytes, quote: bytes,
                         entities: seq<bytes>, offset: uint32, storyId: uint32)
    // inputReplyToMessage
    ensures Reads(InputReplyTo, 0x3faad5f0, I(flags, I(msgId, Opt(On(flags, 0), I(topId, End),
            Opt(On(flags, 1), O(InputPeer, peer, End), Opt(On(flags, 2), S(quote, End),
            Opt(On(flags, 3), V(AnObject(Entity), entities, End), Opt(On(flags, 4), I(offset, End), End))))))))
    // inputReplyToStory
    ensures Reads(InputReplyTo, 0x7e2a9a7b, O(InputPeer, peer, I(storyId, End)))
    ensures c !in {0x3faad5f0, 0x7e2a9a7b} ==> Refuses(InputReplyTo, c)
  {
    hide Fit, Reads, Refuses, On, Skip, Body;
    Rules(InputReplyTo);
    InputReplyToBodies();
  }

  lemma DraftMessageBodies()
    ensures forall c: nat :: Body(DraftMessage, c) == DraftMessageBody(c)
  {
  }

  lemma DraftMessageWire(c: uint32, flags: uint32, date: uint32, replyTo: bytes, message: bytes, entities: seq<bytes>,
                         media: bytes)
    // draftMessageEmpty
    ensures Reads(DraftMessage, 0x1b0c841a, I(flags, Opt(On(flags, 0), I(date, End), End)))
    // draftMessage
    ensures Reads(DraftMessage, 0x3fccf7ef, I(flags, Opt(On(flags, 4), O(InputReplyTo, replyTo, End), S(message,
            Opt(On(flags, 3), V(AnObject(Entity), entities, End), Opt(On(flags, 5), O(InputMedia, media, End), I(date,
            End)))))))
    ensures c !in {0x1b0c841a, 0x3fccf7ef} ==> Refuses(DraftMessage, c)
  {
    hide Fit, Reads, Refuses, On, Skip, Body;
    Rules(DraftMessage);
    DraftMessageBodies();
  }

  lemma EntityBodies()
    ensures forall c: nat :: Body(Entity, c) == EntityBody(c)
  {
  }

  lemma EntityWire(c: uint32, offset: uint32, length: uint32, language: bytes, url: bytes, id: uint64, flags: uint32)
    // messageEntityUnknown, messageEntityMention, messageEntityHashtag, messageEntityBotCommand, messageEntityUrl,
    // messageEntityEmail, messageEntityBold, messageEntityItalic, messageEntityCode, messageEntityPhone,
    // messageEntityCashtag, messageEntityUnderline, messageEntityStrike, messageEntityBankCard, messageEntitySpoiler
    ensures c in {0xbb92ba95, 0xfa04579d, 0x6f635b0d, 0x6cef8ac7, 0x6ed02538, 0x64e475c2, 0xbd610bc9, 0x826f8b60,
                  0x28a20571, 0x9b69e34b, 0x4c4e743f, 0x9c4e7e8b, 0xbf0693d4, 0x761e6af4, 0x32ca960f} ==>
              Reads(Entity, c, I(offset, I(length, End)))
    // messageEntityPre
    ensures Reads(Entity, 0x73924be0, I(offset, I(length, S(language, End))))
    // messageEntityTextUrl
    ensures Reads(Entity, 0x76a6d327, I(offset, I(length, S(url, End))))
    // messageEntityMentionName, messageEntityCustomEmoji
    ensures c in {0xdc7b1140, 0xc8cf05f8} ==> Reads(Entity, c, I(offset, I(length, L(id, End))))
    // messageEntityBlockquote
    ensures Reads(Entity, 0xf1ccaaac, I(flags, I(offset, I(length, End))))
    ensures c !in {0xbb92ba95, 0xfa04579d, 0x6f635b0d, 0x6cef8ac7, 0x6ed02538, 0x64e475c2, 0xbd610bc9, 0x826f8b60,
                   0x28a20571, 0x9b69e34b, 0x4c4e743f, 0x9c4e7e8b, 0xbf0693d4, 0x761e6af4, 0x32ca960f, 0x73924be0,
                   0x76a6d327, 0xdc7b1140, 0xc8cf05f8, 0xf1ccaaac} ==>
              Refuses(Entity, c)
  {
    hide Fit, Reads, Refuses, On, Skip, Body;
    Rules(Entity);
    EntityBodies();
  }

  lemma InlineQueryPeerTypeBodies()
    ensures forall c: nat :: Body(InlineQueryPeerType, c) == InlineQueryPeerTypeBody(c)
  {
  }

  lemma InlineQueryPeerTypeWire(c: uint32)
    // inlineQueryPeerTypeSameBotPM, inlineQueryPeerTypePM, inlineQueryPeerTypeChat, inlineQueryPeerTypeMegagroup,
    // inlineQueryPeerTypeBroadcast, inlineQueryPeerTypeBotPM
    ensures c in {0x3081ed9d, 0x833c0fac, 0xd766c50a, 0x5bc52d1a, 0x6d1ded88, 0xe3b2a56a} ==>
              Reads(InlineQueryPeerType, c, End)
    ensures c !in {0x3081ed9d, 0x833c0fac, 0xd766c50a, 0x5bc52d1a, 0x6d1ded88, 0xe3b2a56a} ==>
              Refuses(InlineQueryPeerType, c)
  {
    hide Fit, Reads, Refuses, On, Skip, Body;
    Rules(InlineQueryPeerType);
    InlineQueryPeerTypeBodies();
  }

  lemma KeyboardButtonBodies()
    ensures forall c: nat :: Body(KeyboardButton, c) == KeyboardButtonBody(c)
  {
  }

  lemma KeyboardButtonWire1(c: uint32, text: bytes, url: bytes, flags: uint32, data: bytes, query: bytes,
                            peerTypes: seq<bytes>)
    // keyboardButton, keyboardButtonRequestPhone, keyboardButtonRequestGeoLoc, keyboardButtonGame, keyboardButtonBuy
    ensures c in {0xa2fa4880, 0xb16a6c29, 0xfc796b3f, 0x50f41ccf, 0xafd93fbb} ==>
              Reads(KeyboardButton, c, S(text, End))
    // keyboardButtonUrl, keyboardButtonWebView, keyboardButtonSimpleWebView
    ensures c in {0x258aff05, 0x13767230, 0xa0c0505c} ==> Reads(KeyboardButton, c, S(text, S(url, End)))
    // keyboardButtonCallback
    ensures Reads(KeyboardButton, 0x35bbdb6b, I(flags, S(text, S(data, End))))
    // keyboardButtonSwitchInline
    ensures Reads(KeyboardButton, 0x93b9fbb5, I(flags, S(text, S(query,
            Opt(On(flags, 1), V(AnObject(InlineQueryPeerType), peerTypes, End), End)))))
  {
    hide Fit, Reads, Refuses, On, Skip, Body;
    Rules(KeyboardButton);
    KeyboardButtonBodies();
  }

  lemma KeyboardButtonWire2(c: uint32, flags: uint32, text: bytes, fwdText: bytes, url: bytes, buttonId: uint32,
                            quiz: uint32, userId: uint64)
    // keyboardButtonUrlAuth
    ensures Reads(KeyboardButton, 0x10b78d29, I(flags, S(text, Opt(On(flags, 0), S(fwdText, End), S(url, I(buttonId,
            End))))))
    // keyboardButtonRequestPoll
    ensures Reads(KeyboardButton, 0xbbc7515d, I(flags, Opt(On(flags, 0), I(quiz, End), S(text, End))))
    // keyboardButtonUserProfile
    ensures Reads(KeyboardButton, 0x308660c1, S(text, L(userId, End)))
    ensures c !in {0xa2fa4880, 0xb16a6c29, 0xfc796b3f, 0x50f41ccf, 0xafd93fbb, 0x258aff05, 0x13767230, 0xa0c0505c,
                   0x35bbdb6b, 0x93b9fbb5, 0x10b78d29, 0xbbc7515d, 0x308660c1} ==>
              Refuses(KeyboardButton, c)
  {
    hide Fit, Reads, Refuses, On, Skip, Body;
    Rules(KeyboardButton);
    KeyboardButtonBodies();
  }

  lemma KeyboardButtonRowBodies()
    ensures forall c: nat :: Body(KeyboardButtonRow, c) == KeyboardButtonRowBody(c)
  {
  }

  lemma KeyboardButtonRowWire(c: uint32, buttons: seq<bytes>)
    // keyboardButtonRow
    ensures Reads(KeyboardButtonRow, 0x77608b83, V(AnObject(KeyboardButton), buttons, End))
    ensures c !in {0x77608b83} ==> Refuses(KeyboardButtonRow, c)
  {
    hide Fit, Reads, Refuses, On, Skip, Body;
    Rules(KeyboardButtonRow);
    KeyboardButtonRowBodies();
  }

  lemma ReplyMarkupBodies()
    ensures forall c: nat :: Body(ReplyMarkup, c) == ReplyMarkupBody(c)
  {
  }

  lemma ReplyMarkupWire(c: uint32, flags: uint32, placeholder: bytes, rows: seq<bytes>)
    // replyKeyboardHide
    ensures Reads(ReplyMarkup, 0xa03e5b85, I(flags, End))
    // replyKeyboardForceReply
    ensures Reads(ReplyMarkup, 0x86b40b08, I(flags, Opt(On(flags, 3), S(placeholder, End), End)))
    // replyKeyboardMarkup
    ensures Reads(ReplyMarkup, 0x85dd99d1, I(flags, V(AnObject(KeyboardButtonRow), rows,
            Opt(On(flags, 3), S(placeholder, End), End))))
    // replyInlineMarkup
    ensures Reads(ReplyMarkup, 0x48a30254, V(AnObject(KeyboardButtonRow), rows, End))
    ensures c !in {0xa03e5b85, 0x86b40b08, 0x85dd99d1, 0x48a30254} ==> Refuses(ReplyMarkup, c)
  {
    hide Fit, Reads, Refuses, On, Skip, Body;
    Rules(ReplyMarkup);
    ReplyMarkupBodies();
  }

  lemma ReactionBodies()
    ensures forall c: nat :: Body(Reaction, c) == ReactionBody(c)
  {
  }

  lemma ReactionWire(c: uint32, emoticon: bytes, documentId: uint64)
    // reactionEmpty, reactionPaid
    ensures c in {0x79f5d419, 0x523da4eb} ==> Reads(Reaction, c, End)
    // reactionEmoji
    ensures Reads(Reaction, 0x1b2286b8, S(emoticon, End))
    // reactionCustomEmoji
    ensures Reads(Reaction, 0x8935fc73, L(documentId, End))
    ensures c !in {0x79f5d419, 0x523da4eb, 0x1b2286b8, 0x8935fc73} ==> Refuses(Reaction, c)
  {
    hide Fit, Reads, Refuses, On, Skip, Body;
    Rules(Reaction);
    ReactionBodies();
  }

  lemma ReactionCountBodies()
    ensures forall c: nat :: Body(ReactionCount, c) == ReactionCountBody(c)
  {
  }

  lemma ReactionCountWire(c: uint32, flags: uint32, order: uint32, reaction: bytes, count: uint32)
    // reactionCount
    ensures Reads(ReactionCount, 0xa3d1cb80, I(flags, Opt(On(flags, 0), I(order, End), O(Reaction, reaction, I(count,
            End)))))
    ensures c !in {0xa3d1cb80} ==> Refuses(ReactionCount, c)
  {
    hide Fit, Reads, Refuses, On, Skip, Body;
    Rules(ReactionCount);
    ReactionCountBodies();
  }

  lemma PeerReactionBodies()
    ensures forall c: nat :: Body(PeerReaction, c) == PeerReactionBody(c)
  {
  }

  lemma PeerReactionWire(c: uint32, flags: uint32, reaction: bytes, date: uint32, peer: bytes)
    // messagePeerReaction
    ensures Reads(PeerReaction, 0xb156fe9d, I(flags, O(Reaction, reaction, I(date, O(Peer, peer, End)))))
    ensures c !in {0xb156fe9d} ==> Refuses(PeerReaction, c)
  {
    hide Fit, Reads, Refuses, On, Skip, Body;
    Rules(PeerReaction);
    PeerReactionBodies();
  }

  lemma ReactorBodies()
    ensures forall c: nat :: Body(Reactor, c) == ReactorBody(c)
  {
  }

  lemma ReactorWire(c: uint32, flags: uint32, peer: bytes, count: uint32, date: uint32)
    // messageReactor
    ensures Reads(Reactor, 0xedd1b4ad, I(flags, Opt(On(flags, 3), O(Peer, peer, End), I(count, I(date, End)))))
    ensures c !in {0xedd1b4ad} ==> Refuses(Reactor, c)
  {
    hide Fit, Reads, Refuses, On, Skip, Body;
    Rules(Reactor);
    ReactorBodies();
  }

  lemma ReactionsBodies()
    ensures forall c: nat :: Body(Reactions, c) == ReactionsBody(c)
  {
  }

  lemma ReactionsWire(c: uint32, flags: uint32, results: seq<bytes>, recent: seq<bytes>, top: seq<bytes>)
    // messageReactions
    ensures Reads(Reactions, 0x4f2b9479, I(flags, V(AnObject(ReactionCount), results,
            Opt(On(flags, 1), V(AnObject(PeerReaction), recent, End),
            Opt(On(flags, 2), V(AnObject(Reactor), top, End), End)))))
    ensures c !in {0x4f2b9479} ==> Refuses(Reactions, c)
  {
    hide Fit, Reads, Refuses, On, Skip, Body;
    Rules(Reactions);
    ReactionsBodies();
  }

  lemma RepliesBodies()
    ensures forall c: nat :: Body(Replies, c) == RepliesBody(c)
  {
  }

  lemma RepliesWire(c: uint32, flags: uint32, replies: uint32, pts: uint32, repliers: seq<bytes>, channelId: uint64,
                    maxId: uint32, readMaxId: uint32)
    // messageReplies
    ensures Reads(Replies, 0x83d60fc2, I(flags, I(replies, I(pts, Opt(On(flags, 1), V(AnObject(Peer), repliers, End),
            Opt(On(flags, 0), L(channelId, End), Opt(On(flags, 2), I(maxId, End), Opt(On(flags, 3), I(readMaxId, End),
            End))))))))
    ensures c !in {0x83d60fc2} ==> Refuses(Replies, c)
  {
    hide Fit, Reads, Refuses, On, Skip, Body;
    Rules(Replies);
    RepliesBodies();
  }

  lemma TextWithEntitiesBodies()
    ensures forall c: nat :: Body(TextWithEntities, c) == TextWithEntitiesBody(c)
  {
  }

  lemma TextWithEntitiesWire(c: uint32, text: bytes, entities: seq<bytes>)
    // textWithEntities_poll
    ensures Reads(TextWithEntities, 0x751f3146, S(text, V(AnObject(Entity), entities, End)))
    ensures c !in {0x751f3146} ==> Refuses(TextWithEntities, c)
  {
    hide Fit, Reads, Refuses, On, Skip, Body;
    Rules(TextWithEntities);
    TextWithEntitiesBodies();
  }

  lemma FactCheckBodies()
    ensures forall c: nat :: Body(FactCheck, c) == FactCheckBody(c)
  {
  }

  lemma FactCheckWire(c: uint32, flags: uint32, country: bytes, text: bytes, hash: uint64)
    // factCheck
    ensures Reads(FactCheck, 0xb89bfccf, I(flags, Opt(On(flags, 1), S(country, O(TextWithEntities, text, End)),
            L(hash, End))))
    ensures c !in {0xb89bfccf} ==> Refuses(FactCheck, c)
  {
    hide Fit, Reads, Refuses, On, Skip, Body;
    Rules(FactCheck);
    FactCheckBodies();
  }

  lemma FwdHeaderBodies()
    ensures forall c: nat :: Body(FwdHeader, c) == FwdHeaderBody(c)
  {
  }

  lemma FwdHeaderWire(flags: uint32, from: bytes, fromName: bytes, date: uint32, channelPost: uint32, author: bytes,
                      savedPeer: bytes, savedMsgId: uint32, savedFrom: bytes, savedName: bytes, savedDate: uint32,
                      psaType: bytes)
    // messageFwdHeader
    ensures Reads(FwdHeader, 0x4e4df4bb, I(flags, Opt(On(flags, 0), O(Peer, from, End),
            Opt(On(flags, 5), S(fromName, End), I(date, Opt(On(flags, 2), I(channelPost, End),
            Opt(On(flags, 3), S(author, End), Opt(On(flags, 4), O(Peer, savedPeer, I(savedMsgId, End)),
            Opt(On(flags, 8), O(Peer, savedFrom, End), Opt(On(flags, 9), S(savedName, End),
            Opt(On(flags, 10), I(savedDate, End), Opt(On(flags, 6), S(psaType, End), End))))))))))))
  {
    hide Fit, Reads, Refuses, On, Skip, Body;
    Rules(FwdHeader);
    FwdHeaderBodies();
    FitReads(FwdHeader, 0x4e4df4bb, I(flags, Opt(On(flags, 0), O(Peer, from, End), Opt(On(flags, 5), S(fromName, End),
      I(date, Opt(On(flags, 2), I(channelPost, End), Opt(On(flags, 3), S(author, End),
      Opt(On(flags, 4), O(Peer, savedPeer, I(savedMsgId, End)), Opt(On(flags, 8), O(Peer, savedFrom, End),
      Opt(On(flags, 9), S(savedName, End), Opt(On(flags, 10), I(savedDate, End), Opt(On(flags, 6), S(psaType, End),
      End))))))))))));
  }

  lemma FwdHeaderRefused(c: uint32)
    ensures c !in {0x4e4df4bb} ==> Refuses(FwdHeader, c)
  {
    hide Fit, Reads, Refuses, On, Skip, Body;
    Rules(FwdHeader);
    FwdHeaderBodies();
  }

  lemma ReplyHeaderBodies()
    ensures forall c: nat :: Body(ReplyHeader, c) == ReplyHeaderBody(c)
  {
  }

  lemma ReplyHeaderWire(c: uint32, peer: bytes, storyId: uint32, flags: uint32, msgId: uint32, from: bytes,
                        media: bytes, topId: uint32, quote: bytes, entities: seq<bytes>, offset: uint32)
    // messageReplyStoryHeader
    ensures Reads(ReplyHeader, 0x0e5af939, O(Peer, peer, I(storyId, End)))
    // messageReplyHeader
    ensures Reads(ReplyHeader, 0xafbc09db, I(flags, Opt(On(flags, 4), I(msgId, End),
            Opt(On(flags, 0), O(Peer, peer, End), Opt(On(flags, 5), O(FwdHeader, from, End),
            Opt(On(flags, 8), O(Media, media, End), Opt(On(flags, 1), I(topId, End), Opt(On(flags, 6), S(quote, End),
            Opt(On(flags, 7), V(AnObject(Entity), entities, End), Opt(On(flags, 10), I(offset, End), End))))))))))
    ensures c !in {0x0e5af939, 0xafbc09db} ==> Refuses(ReplyHeader, c)
  {
    hide Fit, Reads, Refuses, On, Skip, Body;
    Rules(ReplyHeader);
    ReplyHeaderBodies();
  }
}
