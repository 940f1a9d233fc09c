/**
 * The login decision of src/pages/Login.jsx: an (email, password) submission
 * either grants a role, carrying the email as entered, or is rejected with one
 * of two messages.
 */
module Login {

  import Seqs

  datatype Role = Admin | Student

  datatype Rejection = MissingCredentials | InvalidCredentials

  /** The single outcome of one submission. */
  datatype Outcome = Granted(role: Role, email: string) | Rejected(reason: Rejection)

  datatype Account = Account(email: string, password: string)

  /** The fixed administrator accounts. */
  const AdminAccounts: seq<Account> := [
    Account("admin1@dlsl.edu.ph", "admin123"),
    Account("admin2@dlsl.edu.ph", "admin456"),
    Account("admin3@dlsl.edu.ph", "admin789")
  ]

  /** Any address in this domain may sign in as a student. */
  const CampusDomain := "@dlsl.edu.ph"

  /** `adminAccounts.some(...)`: some administrator account has exactly this email and password. */
  predicate IsAdmin(email: string, password: string)
  {
    Account(email, password) in AdminAccounts
  }

  predicate IsAdminEmail(email: string)
  {
    exists a :: a in AdminAccounts && a.email == email
  }

  /**
   * `handleLogin`: an empty field is rejected first, then an exact
   * administrator match grants 'admin', then a campus address grants
   * 'student'; anything else is rejected.
   */
  function HandleLogin(email: string, password: string): (out: Outcome)
    ensures out == Rejected(MissingCredentials) <==> email == "" || password == ""
    ensures out.Granted? ==> out.email == email && email != "" && password != ""
    ensures out.Granted? && out.role == Admin <==> email != "" && password != "" && IsAdmin(email, password)
    ensures out.Granted? && out.role == Student <==>
              email != "" && password != "" && !IsAdmin(email, password) && Seqs.EndsWith(email, CampusDomain)
    ensures out == Rejected(InvalidCredentials) <==>
              email != "" && password != "" && !IsAdmin(email, password) && !Seqs.EndsWith(email, CampusDomain)
  {
    if email == "" || password == "" then Rejected(MissingCredentials)
    else if IsAdmin(email, password) then Granted(Admin, email)
    else if Seqs.EndsWith(email, CampusDomain) then Granted(Student, email)
    else Rejected(InvalidCredentials)
  }

  /** Every administrator address is itself a campus address. */
  lemma AdminEmailsAreCampus(a: Account)
    requires a in AdminAccounts
    ensures Seqs.EndsWith(a.email, CampusDomain)
  {
    if a == AdminAccounts[0] {
      assert a.email == "admin1" + CampusDomain;
    } else if a == AdminAccounts[1] {
      assert a.email == "admin2" + CampusDomain;
    } else {
      assert a.email == "admin3" + CampusDomain;
    }
  }

  /** Whatever role is granted, the email is a campus address and the password was given. */
  lemma GrantedOnlyOnCampus(email: string, password: string)
    requires HandleLogin(email, password).Granted?
    ensures Seqs.EndsWith(email, CampusDomain) && password != ""
  {
    if IsAdmin(email, password) {
      AdminEmailsAreCampus(Account(email, password));
    }
  }

  /**
   * The administrator check comes first, but a wrong password does not reject
   * an administrator address: it ends in the campus domain, so it signs in as
   * a student.
   */
  lemma AdminWrongPasswordIsStudent(a: Account, password: string)
    requires a in AdminAccounts
    requires password != "" && password != a.password
    ensures HandleLogin(a.email, password) == Granted(Student, a.email)
  {
  }

  /** Admin is granted only to an administrator address. */
  lemma AdminOnlyForAdminEmail(email: string, password: string)
    requires HandleLogin(email, password) == Granted(Admin, email)
    ensures IsAdminEmail(email)
  {
  }

}
