/** model/Teacher.java: a plain mutable record of five fields. */
module Teachers {
  import opened Ints

  /** The value of a Teacher object at one moment. */
  datatype TeacherRecord = TeacherRecord(
    id: int32,
    name: string,
    contact: string,
    isAvailable: bool,
    qualifications: string)

  class Teacher {
    var id: int32
    var name: string
    var contact: string
    var isAvailable: bool
    var qualifications: string

    function View(): TeacherRecord
      reads this
    {
      TeacherRecord(id, name, contact, isAvailable, qualifications)
    }

    /** Stores the five fields exactly as given; no validation of any of them. */
    constructor (id: int32, name: string, contact: string, isAvailable: bool, qualifications: string)
      ensures View() == TeacherRecord(id, name, contact, isAvailable, qualifications)
    {
      this.id := id;
      this.name := name;
      this.contact := contact;
      this.isAvailable := isAvailable;
      this.qualifications := qualifications;
    }

    /** Any int is accepted, zero and negatives included. */
    method SetId(id: int32)
      modifies this
      ensures View() == old(View()).(id := id)
    {
      this.id := id;
    }

    method SetName(name: string)
      modifies this
      ensures View() == old(View()).(name := name)
    {
      this.name := name;
    }

    method SetContact(contact: string)
      modifies this
      ensures View() == old(View()).(contact := contact)
    {
      this.contact := contact;
    }

    method SetAvailable(available: bool)
      modifies this
      ensures View() == old(View()).(isAvailable := available)
    {
      this.isAvailable := available;
    }

    method SetQualifications(qualifications: string)
      modifies this
      ensures View() == old(View()).(qualifications := qualifications)
    {
      this.qualifications := qualifications;
    }
  }
}
