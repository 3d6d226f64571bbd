/** The records the pages exchange (src/types/member.ts and src/types/auth.ts). */
module Types {

  /** A gym member. `subscriptionType` is kept as text: the source casts any string into it. */
  datatype Member = Member(
    id: string,
    name: string,
    phone: string,
    subscriptionType: string,
    startDate: string,
    endDate: string,
    amountPaid: real,
    isActive: bool,
    createdAt: string)

  /** The six fields the member form edits. */
  datatype MemberFormData = MemberFormData(
    name: string,
    phone: string,
    subscriptionType: string,
    startDate: string,
    endDate: string,
    amountPaid: real)

  datatype Role = Admin | Employee

  datatype User = User(id: string, username: string, role: Role, name: string)
}
