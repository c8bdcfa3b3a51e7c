/** The template-card message posted to the chat webhook. */
module ProtoWecom {

  /** The value of one information row. The elapsed-time row keeps the duration,
      in nanoseconds, that it renders as minutes with one decimal place. */
  datatype RowValue = Text(text: string) | ElapsedMinutes(nanos: int)

  datatype Row = Row(keyname: string, value: RowValue)

  datatype Source = Source(iconUrl: string, desc: string, descColor: int)

  datatype MainTitle = MainTitle(title: string, desc: string)

  datatype EmphasisContent = EmphasisContent(title: string, desc: string)

  datatype CardAction = CardAction(kind: int, url: string, appId: string)

  datatype TemplateCard = TemplateCard(
    cardType: string,
    source: Source,
    mainTitle: MainTitle,
    emphasisContent: EmphasisContent,
    subTitleText: string,
    horizontalContentList: seq<Row>,
    cardAction: CardAction)

  datatype WeComPush = WeComPush(msgtype: string, templateCard: TemplateCard)
}
